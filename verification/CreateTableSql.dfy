/**
 `generateSQL` of the create-table form, and a reader of the statement it writes: what the SQL
 says of every column is what the form says of it.
 */
module CreateTableSql {
  import opened Options
  import opened Strings
  import opened SqlText
  import opened CreateTable

  // ---------------------------------------------------------------------------
  // The text

  predicate IsAuto(e: Engine, col: Column) {
    col.typ == AUTO_INCREMENT && col.isPrimary && e.autoIncrement.Some?
  }

  function SequenceOf(table: string, col: Column): string {
    table + "_" + col.name + "_seq"
  }

  function NextValue(sequence: string): string {
    "nextval('" + sequence + "')"
  }

  /** A column's definition, word by word. */
  function ColumnWords(e: Engine, table: string, col: Column): (words: seq<string>)
    ensures |words| >= 1 && words[0] == col.name
  {
    if IsAuto(e, col) then
      [col.name] + e.autoIncrement.value
      + (if e.autoIncrementSequence then ["DEFAULT", NextValue(SequenceOf(table, col))] else [])
    else
      var isPrimary := col.isPrimary && e.supportsConstraints;
      [col.name, if col.typ == AUTO_INCREMENT then e.keyType else col.typ]
      + (if isPrimary then ["PRIMARY", "KEY"] else [])
      + (if !col.isNullable && !isPrimary then ["NOT", "NULL"] else [])
      + (if col.isUnique && !isPrimary && e.supportsConstraints then ["UNIQUE"] else [])
      + (if col.defaultValue != "" then ["DEFAULT", col.defaultValue] else [])
  }

  function ColumnText(e: Engine, table: string, col: Column): string {
    Indented(ColumnWords(e, table, col))
  }

  function Indented(words: seq<string>): string {
    "  " + Join(words, " ")
  }

  function ColumnTexts(e: Engine, table: string, cols: seq<Column>): (r: seq<string>)
    ensures |r| == |cols|
  {
    if cols == [] then [] else ColumnTexts(e, table, cols[..|cols| - 1]) + [ColumnText(e, table, cols[|cols| - 1])]
  }

  function SequenceLine(table: string, col: Column): string {
    "CREATE SEQUENCE IF NOT EXISTS " + SequenceOf(table, col) + ";"
  }

  /** The statements the table depends on, one for every column that draws from a sequence. */
  function Prelude(e: Engine, table: string, cols: seq<Column>): seq<string> {
    if cols == [] then [] else
    var before, last := Prelude(e, table, cols[..|cols| - 1]), cols[|cols| - 1];
    if IsAuto(e, last) && e.autoIncrementSequence then before + [SequenceLine(table, last)] else before
  }

  function SqlOf(form: Form): string {
    if Trim(form.tableName) == "" then "" else
    var e := form.Engine();
    var create := "CREATE TABLE " + form.tableName + " (\n" + Join(ColumnTexts(e, form.tableName, form.columns), ",\n") + "\n);";
    var prelude := Prelude(e, form.tableName, form.columns);
    if prelude != [] then Join(prelude, "\n") + "\n" + create else create
  }

  // ---------------------------------------------------------------------------
  // The method

  function Two(a: string, b: string): string {
    " " + a + " " + b
  }

  lemma TwoMore(words: seq<string>, a: string, b: string)
    requires words != []
    ensures Join(words + [a, b], " ") == Join(words, " ") + Two(a, b)
  {
    JoinLast(words, a, " ");
    JoinLast(words + [a], b, " ");
    assert words + [a, b] == words + [a] + [b];
    var text := Join(words, " ");
    assert text + (" " + a) + (" " + b) == text + Two(a, b);
  }

  lemma QualifierText()
    ensures Two("PRIMARY", "KEY") == " PRIMARY KEY" && Two("NOT", "NULL") == " NOT NULL" && " " + "UNIQUE" == " UNIQUE"
    ensures forall value: string :: Two("DEFAULT", value) == " DEFAULT " + value
  {
    forall value: string ensures Two("DEFAULT", value) == " DEFAULT " + value {
      assert " " + "DEFAULT" + " " == " DEFAULT ";
    }
  }

  /** Everything after the auto-increment test: the definition grows qualifier by qualifier. */
  method Qualify(e: Engine, table: string, col: Column) returns (def: string)
    requires !IsAuto(e, col)
    ensures "  " + def == ColumnText(e, table, col)
  {
    var typ := if col.typ == AUTO_INCREMENT then e.keyType else col.typ;
    var isPrimary := col.isPrimary && e.supportsConstraints;
    def := col.name + " " + typ;
    ghost var named := [col.name, typ];
    assert named[1..] == [typ];
    QualifierText();
    ghost var keyed := named + if isPrimary then ["PRIMARY", "KEY"] else [];
    if isPrimary {
      TwoMore(named, "PRIMARY", "KEY");
      def := def + " PRIMARY KEY";
    } else {
      assert keyed == named;
    }
    assert def == Join(keyed, " ");
    ghost var nulled := keyed + if !col.isNullable && !isPrimary then ["NOT", "NULL"] else [];
    if !col.isNullable && !isPrimary {
      TwoMore(keyed, "NOT", "NULL");
      def := def + " NOT NULL";
    } else {
      assert nulled == keyed;
    }
    assert def == Join(nulled, " ");
    ghost var unique := nulled + if col.isUnique && !isPrimary && e.supportsConstraints then ["UNIQUE"] else [];
    if col.isUnique && !isPrimary && e.supportsConstraints {
      JoinLast(nulled, "UNIQUE", " ");
      def := def + " UNIQUE";
    } else {
      assert unique == nulled;
    }
    assert def == Join(unique, " ");
    if col.defaultValue != "" {
      TwoMore(unique, "DEFAULT", col.defaultValue);
      def := def + (" DEFAULT " + col.defaultValue);
    }
    assert ColumnWords(e, table, col) == if col.defaultValue != "" then unique + ["DEFAULT", col.defaultValue] else unique;
  }

  method AutoClause(e: Engine, table: string, col: Column) returns (clause: string, prelude: seq<string>)
    requires IsAuto(e, col) && e.autoIncrement.value != []
    ensures "  " + clause == ColumnText(e, table, col)
    ensures prelude == if e.autoIncrementSequence then [SequenceLine(table, col)] else []
  {
    clause := col.name + " " + Join(e.autoIncrement.value, " ");
    ghost var words := [col.name] + e.autoIncrement.value;
    assert words[1..] == e.autoIncrement.value;
    prelude := [];
    if e.autoIncrementSequence {
      var sequence := table + "_" + col.name + "_seq";
      prelude := ["CREATE SEQUENCE IF NOT EXISTS " + sequence + ";"];
      TwoMore(words, "DEFAULT", NextValue(sequence));
      words := words + ["DEFAULT", NextValue(sequence)];
      QualifierText();
      clause := clause + (" DEFAULT " + NextValue(sequence));
    }
    assert words == ColumnWords(e, table, col);
  }

  /** The callback of the map over the columns, with what it pushes to the prelude. */
  method ColumnDef(e: Engine, table: string, col: Column) returns (colDef: string, pushed: seq<string>)
    requires e.autoIncrement.Some? ==> e.autoIncrement.value != []
    ensures colDef == ColumnText(e, table, col)
    ensures pushed == if IsAuto(e, col) && e.autoIncrementSequence then [SequenceLine(table, col)] else []
  {
    if IsAuto(e, col) {
      var clause, prelude := AutoClause(e, table, col);
      return "  " + clause, prelude;
    }
    var def := Qualify(e, table, col);
    return "  " + def, [];
  }

  lemma DefsGrow(e: Engine, table: string, cols: seq<Column>, col: Column)
    ensures ColumnTexts(e, table, cols + [col]) == ColumnTexts(e, table, cols) + [ColumnText(e, table, col)]
    ensures Prelude(e, table, cols + [col]) ==
      Prelude(e, table, cols) + if IsAuto(e, col) && e.autoIncrementSequence then [SequenceLine(table, col)] else []
  {
    assert (cols + [col])[..|cols|] == cols;
  }

  method ColumnDefs(e: Engine, table: string, cols: seq<Column>) returns (prelude: seq<string>, colDefs: seq<string>)
    requires e.autoIncrement.Some? ==> e.autoIncrement.value != []
    ensures colDefs == ColumnTexts(e, table, cols) && prelude == Prelude(e, table, cols)
  {
    prelude, colDefs := [], [];
    for i := 0 to |cols|
      invariant colDefs == ColumnTexts(e, table, cols[..i])
      invariant prelude == Prelude(e, table, cols[..i])
    {
      assert cols[..i + 1] == cols[..i] + [cols[i]];
      DefsGrow(e, table, cols[..i], cols[i]);
      var def, pushed := ColumnDef(e, table, cols[i]);
      prelude := prelude + pushed;
      colDefs := colDefs + [def];
    }
    assert cols[..|cols|] == cols;
  }

  method GenerateSql(form: Form) returns (sql: string)
    ensures sql == SqlOf(form)
  {
    EnginesAreGood(form.dbType);
    if Trim(form.tableName) == "" { return ""; }
    var prelude, colDefs := ColumnDefs(form.Engine(), form.tableName, form.columns);
    var create := "CREATE TABLE " + form.tableName + " (\n" + Join(colDefs, ",\n") + "\n);";
    sql := if prelude != [] then Join(prelude, "\n") + "\n" + create else create;
  }

  // ---------------------------------------------------------------------------
  // The modal

  /** A partial column: the fields an update names. */
  datatype Updates = Updates(name: Option<string>, typ: Option<string>, isPrimary: Option<bool>,
                             isNullable: Option<bool>, isUnique: Option<bool>)

  const NONE := Updates(None, None, None, None, None)

  /** `{ ...col, ...updates }` */
  function Updated(col: Column, u: Updates): Column {
    Column(u.name.GetOr(col.name), u.typ.GetOr(col.typ), u.isPrimary.GetOr(col.isPrimary),
           u.isNullable.GetOr(col.isNullable), u.isUnique.GetOr(col.isUnique), col.defaultValue)
  }

  class CreateTableModal {
    var dbType: Option<Dialect>
    var tableName: string
    var columns: seq<Column>

    ghost function Now(): Form
      reads this
    {
      Form(dbType, tableName, columns)
    }

    constructor (first: Option<Dialect>)
      ensures Now() == Start(first)
    {
      dbType, tableName, columns := first, "", [DefaultColumn(EngineOf(first))];
    }

    /** A render under a connection; the columns are derived anew where the engine changed. */
    method OnRender(connected: Option<Dialect>)
      modifies this
      ensures Now() == Step(old(Now()), Connect(connected))
    {
      if dbType != connected {
        dbType := connected;
        columns := [DefaultColumn(EngineOf(connected))];
      }
    }

    method OnTableName(input: string)
      modifies this
      ensures Now() == Step(old(Now()), NameTable(input))
    {
      tableName := Sanitize(input);
    }

    /** `updateColumn`: that column with the updates in place, and every other one as it was. */
    method UpdateColumn(index: nat, updates: Updates)
      requires index < |columns|
      modifies this`columns
      ensures columns == old(columns)[index := Updated(old(columns)[index], updates)]
    {
      ghost var was := columns;
      var cols: seq<Column> := [];
      for i := 0 to |columns|
        invariant |cols| == i
        invariant forall k | 0 <= k < i :: cols[k] == if k == index then Updated(was[k], updates) else was[k]
      {
        cols := cols + [if i == index then Updated(columns[i], updates) else columns[i]];
      }
      columns := cols;
    }

    method OnName(index: nat, input: string)
      requires index < |columns|
      modifies this
      ensures Now() == Step(old(Now()), Rename(index, input))
    {
      UpdateColumn(index, NONE.(name := Some(Sanitize(input))));
    }

    method OnType(index: nat, typ: string)
      requires Enabled(Now(), Retype(index, typ))
      modifies this
      ensures Now() == Step(old(Now()), Retype(index, typ))
    {
      UpdateColumn(index, NONE.(typ := Some(typ)));
    }

    /** A ticked key clears the null box; an unticked one takes the sentinel back to the key type. */
    method OnPrimary(index: nat, checked: bool)
      requires Enabled(Now(), TickPrimary(index, checked))
      modifies this
      ensures Now() == Step(old(Now()), TickPrimary(index, checked))
    {
      var col := columns[index];
      var typ := if !checked && col.typ == AUTO_INCREMENT then EngineOf(dbType).keyType else col.typ;
      UpdateColumn(index, NONE.(typ := Some(typ), isPrimary := Some(checked),
                                isNullable := Some(if checked then false else col.isNullable)));
    }

    method OnNullable(index: nat, checked: bool)
      requires index < |columns|
      modifies this
      ensures Now() == Step(old(Now()), TickNullable(index, checked))
    {
      UpdateColumn(index, NONE.(isNullable := Some(checked)));
    }

    method OnUnique(index: nat, checked: bool)
      requires Enabled(Now(), TickUnique(index, checked))
      modifies this
      ensures Now() == Step(old(Now()), TickUnique(index, checked))
    {
      UpdateColumn(index, NONE.(isUnique := Some(checked)));
    }

    method AddColumn()
      requires EngineOf(dbType).types != []
      modifies this
      ensures Now() == Step(old(Now()), Add)
    {
      columns := columns + [NewColumn(EngineOf(dbType))];
    }

    /** `columns.filter((_, i) => i !== index)`, unless it is the only column. */
    method RemoveColumn(index: nat)
      requires index < |columns|
      modifies this
      ensures Now() == Step(old(Now()), Remove(index))
    {
      if |columns| == 1 { return; }
      ghost var was := columns;
      var kept: seq<Column> := [];
      for i := 0 to |columns|
        invariant kept == was[..if i <= index then i else index] + was[index + 1..if i <= index then index + 1 else i]
      {
        if i != index { kept := kept + [columns[i]]; }
      }
      columns := kept;
    }

    /** `handleCreate`: a form that is not complete is refused and stays as it is. */
    method HandleCreate() returns (created: Option<string>)
      modifies this
      ensures Now() == Step(old(Now()), Create)
      ensures created == if Complete(old(Now())) then Some(SqlOf(old(Now()))) else None
    {
      var form := Form(dbType, tableName, columns);
      assert form == old(Now());
      if !Complete(form) {
        assert Step(form, Create) == form;
        return None;
      }
      var sql := GenerateSql(form);
      created := Some(sql);
      tableName := "";
      columns := [DefaultColumn(EngineOf(dbType))];
      assert Now() == form.(tableName := "", columns := [DefaultColumn(form.Engine())]);
    }
  }
}
