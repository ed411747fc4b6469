/**
 The create-table form: the engines it knows, what its columns may hold after any clicks, and
 the state that `CreateTableModal` keeps.
 */
module CreateTable {
  import opened Options
  import opened Strings
  import opened SqlText

  const AUTO_INCREMENT := "__auto_increment__"

  /** `autoIncrement` is the clause after the column's name, word by word. */
  datatype Engine = Engine(
    autoIncrement: Option<seq<string>>,
    autoIncrementSequence: bool,
    supportsConstraints: bool,
    keyType: string,
    types: seq<string>)

  const POSTGRES := Engine(
    Some(["INTEGER", "GENERATED", "BY", "DEFAULT", "AS", "IDENTITY", "PRIMARY", "KEY"]), false, true, "INTEGER",
    ["VARCHAR(255)", "TEXT", "INTEGER", "BIGINT", "BOOLEAN", "TIMESTAMP", "DATE", "JSONB", "UUID", "DECIMAL(10,2)"])

  const MYSQL := Engine(
    Some(["INT", "AUTO_INCREMENT", "PRIMARY", "KEY"]), false, true, "INT",
    ["VARCHAR(255)", "TEXT", "INT", "BIGINT", "BOOLEAN", "TIMESTAMP", "DATE", "JSON", "CHAR(36)", "DECIMAL(10,2)"])

  const MSSQL := Engine(
    Some(["INT", "IDENTITY(1,1)", "PRIMARY", "KEY"]), false, true, "INT",
    ["VARCHAR(255)", "NVARCHAR(MAX)", "INT", "BIGINT", "BIT", "DATETIME2", "DATE", "UNIQUEIDENTIFIER", "DECIMAL(10,2)"])

  const ORACLE := Engine(
    Some(["NUMBER", "GENERATED", "BY", "DEFAULT", "AS", "IDENTITY", "PRIMARY", "KEY"]), false, true, "INTEGER",
    ["VARCHAR2(255)", "CLOB", "INTEGER", "NUMBER(19)", "NUMBER(1)", "TIMESTAMP", "DATE", "RAW(16)", "NUMBER(10,2)"])

  const SQLITE := Engine(
    Some(["INTEGER", "PRIMARY", "KEY", "AUTOINCREMENT"]), false, true, "INTEGER",
    ["TEXT", "INTEGER", "REAL", "BLOB", "NUMERIC"])

  const DUCKDB := Engine(
    Some(["INTEGER", "PRIMARY", "KEY"]), true, true, "INTEGER",
    ["VARCHAR(255)", "TEXT", "INTEGER", "BIGINT", "BOOLEAN", "TIMESTAMP", "DATE", "JSON", "UUID", "DECIMAL(10,2)"])

  const TRINO := Engine(
    None, false, false, "INTEGER",
    ["VARCHAR(255)", "VARCHAR", "INTEGER", "BIGINT", "BOOLEAN", "TIMESTAMP", "DATE", "JSON", "UUID", "DECIMAL(10,2)"])

  function EngineOf(dbType: Option<Dialect>): Engine {
    match dbType
    case Some(Mysql) => MYSQL
    case Some(Mssql) => MSSQL
    case Some(Oracle) => ORACLE
    case Some(Sqlite) => SQLITE
    case Some(Libsql) => SQLITE
    case Some(Duckdb) => DUCKDB
    case Some(Trino) => TRINO
    case _ => POSTGRES
  }

  lemma EveryEngine(dbType: Option<Dialect>)
    ensures
      var e := EngineOf(dbType);
      e == POSTGRES || e == MYSQL || e == MSSQL || e == ORACLE || e == SQLITE || e == DUCKDB || e == TRINO
  {
  }

  // ---------------------------------------------------------------------------
  // The form

  datatype Column = Column(
    name: string, typ: string, isPrimary: bool, isNullable: bool, isUnique: bool, defaultValue: string)

  datatype Form = Form(dbType: Option<Dialect>, tableName: string, columns: seq<Column>)
  {
    function Engine(): Engine { EngineOf(dbType) }
  }

  datatype Event =
    | Connect(dbType: Option<Dialect>)
    | NameTable(input: string)
    | Add
    | Remove(index: nat)
    | Rename(index: nat, input: string)
    | Retype(index: nat, typ: string)
    | TickPrimary(index: nat, checked: bool)
    | TickNullable(index: nat, checked: bool)
    | TickUnique(index: nat, checked: bool)
    | Create

  predicate IsNameChar(c: char) {
    'a' <= c <= 'z' || '0' <= c <= '9' || c == '_'
  }

  predicate IsName(s: string) {
    forall c <- s :: IsNameChar(c)
  }

  lemma NameIsTrimmed(w: string)
    requires IsName(w)
    ensures Trim(w) == w
  {
    assert forall c | IsNameChar(c) :: !IsSpace(c);
  }

  /** `.toLowerCase().replace(/[^a-z0-9_]/g, "_")` */
  function Sanitize(input: string): (r: string)
    ensures IsName(r) && |r| == |input|
    ensures forall i | 0 <= i < |r| ::
      var c := input[i];
      r[i] == if 'a' <= c <= 'z' || '0' <= c <= '9' || c == '_' then c
              else if 'A' <= c <= 'Z' then c + 32 as char
              else '_'
  {
    var lower := Lower(input);
    seq(|lower|, i requires 0 <= i < |lower| => if IsNameChar(lower[i]) then lower[i] else '_')
  }

  function DefaultColumn(e: Engine): Column {
    Column("id", if e.autoIncrement.Some? then AUTO_INCREMENT else e.keyType,
           e.supportsConstraints, false, e.supportsConstraints, "")
  }

  function NewColumn(e: Engine): Column
    requires e.types != []
  {
    Column("", e.types[0], false, true, false, "")
  }

  /** What the clicks of the key box do to a column. */
  function Tick(col: Column, checked: bool, e: Engine): Column {
    col.(isPrimary := checked,
         isNullable := if checked then false else col.isNullable,
         typ := if !checked && col.typ == AUTO_INCREMENT then e.keyType else col.typ)
  }

  predicate Complete(form: Form) {
    Trim(form.tableName) != "" && forall col <- form.columns :: Trim(col.name) != ""
  }

  function Step(form: Form, event: Event): Form
    requires Enabled(form, event)
  {
    var e, cols := form.Engine(), form.columns;
    match event
    case Connect(dbType) =>
      if dbType == form.dbType then form
      else form.(dbType := dbType, columns := [DefaultColumn(EngineOf(dbType))])
    case NameTable(input) => form.(tableName := Sanitize(input))
    case Add => form.(columns := cols + [NewColumn(e)])
    case Remove(i) => if |cols| == 1 then form else form.(columns := cols[..i] + cols[i + 1..])
    case Rename(i, input) => form.(columns := cols[i := cols[i].(name := Sanitize(input))])
    case Retype(i, typ) => form.(columns := cols[i := cols[i].(typ := typ)])
    case TickPrimary(i, checked) => form.(columns := cols[i := Tick(cols[i], checked, e)])
    case TickNullable(i, checked) => form.(columns := cols[i := cols[i].(isNullable := checked)])
    case TickUnique(i, checked) => form.(columns := cols[i := cols[i].(isUnique := checked)])
    case Create => if Complete(form) then form.(tableName := "", columns := [DefaultColumn(e)]) else form
  }

  /** What the dropdown of a column lists. */
  predicate Listed(typ: string, isPrimary: bool, e: Engine) {
    typ in e.types || (typ == AUTO_INCREMENT && isPrimary && e.autoIncrement.Some?)
  }

  /** The controls the form shows. */
  predicate Enabled(form: Form, event: Event) {
    var e, n := form.Engine(), |form.columns|;
    match event
    case Connect(_) => true
    case NameTable(_) => true
    case Add => e.types != []
    case Remove(i) => i < n
    case Rename(i, _) => i < n
    case Retype(i, typ) => i < n && Listed(typ, form.columns[i].isPrimary, e)
    case TickPrimary(i, _) => i < n && e.supportsConstraints
    case TickNullable(i, _) => i < n
    case TickUnique(i, _) => i < n && e.supportsConstraints
    case Create => true
  }

  function Start(dbType: Option<Dialect>): Form {
    Form(dbType, "", [DefaultColumn(EngineOf(dbType))])
  }

  ghost predicate Valid(first: Option<Dialect>, trace: seq<Event>)
    decreases |trace|, 0
  {
    trace == [] || (
      && Valid(first, trace[..|trace| - 1])
      && Enabled(Exec(first, trace[..|trace| - 1]), trace[|trace| - 1]))
  }

  ghost function Exec(first: Option<Dialect>, trace: seq<Event>): Form
    requires Valid(first, trace)
    decreases |trace|, 1
  {
    if trace == [] then Start(first) else Step(Exec(first, trace[..|trace| - 1]), trace[|trace| - 1])
  }

  // ---------------------------------------------------------------------------
  // The invariant

  ghost predicate GoodEngine(e: Engine) {
    && e.types != [] && e.keyType in e.types
    && (e.autoIncrement.Some? ==> e.supportsConstraints && e.autoIncrement.value != [])
  }

  ghost predicate GoodColumn(col: Column, e: Engine) {
    && Listed(col.typ, col.isPrimary, e)
    && IsName(col.name) && col.defaultValue == ""
    && (!e.supportsConstraints ==> !col.isPrimary && !col.isUnique)
  }

  ghost predicate GoodForm(form: Form) {
    && form.columns != []
    && (forall i | 0 <= i < |form.columns| :: GoodColumn(form.columns[i], form.Engine()))
    && IsName(form.tableName)
  }

  lemma KeyTypeIsListed(e: Engine, i: nat)
    requires i < |e.types| && e.types[i] == e.keyType
    requires e.autoIncrement.Some? ==> e.supportsConstraints && e.autoIncrement.value != []
    ensures GoodEngine(e)
  {
  }

  lemma EnginesAreGood(dbType: Option<Dialect>)
    ensures GoodEngine(EngineOf(dbType))
  {
    EveryEngine(dbType);
    KeyTypeIsListed(POSTGRES, 2);
    KeyTypeIsListed(MYSQL, 2);
    KeyTypeIsListed(MSSQL, 2);
    KeyTypeIsListed(ORACLE, 2);
    KeyTypeIsListed(SQLITE, 1);
    KeyTypeIsListed(DUCKDB, 2);
    KeyTypeIsListed(TRINO, 2);
  }

  lemma DefaultIsGood(dbType: Option<Dialect>)
    ensures GoodColumn(DefaultColumn(EngineOf(dbType)), EngineOf(dbType))
  {
    EnginesAreGood(dbType);
  }

  lemma StepIsGood(form: Form, event: Event)
    requires GoodForm(form) && Enabled(form, event)
    ensures GoodForm(Step(form, event))
  {
    EnginesAreGood(form.dbType);
    DefaultIsGood(form.dbType);
    if event.Connect? {
      DefaultIsGood(event.dbType);
    } else if event.Add? {
      assert GoodColumn(NewColumn(form.Engine()), form.Engine());
    }
  }

  /**
   Whatever is clicked, in whatever order: there is a column, every type is one its dropdown
   lists (so the trigger is never empty), the sentinel sits only on a key of an engine with
   auto-increment, and names are plain identifiers.
   */
  lemma {:induction false} FormStaysGood(first: Option<Dialect>, trace: seq<Event>)
    requires Valid(first, trace)
    ensures GoodForm(Exec(first, trace))
  {
    if trace == [] {
      DefaultIsGood(first);
    } else {
      FormStaysGood(first, trace[..|trace| - 1]);
      StepIsGood(Exec(first, trace[..|trace| - 1]), trace[|trace| - 1]);
    }
  }
}
