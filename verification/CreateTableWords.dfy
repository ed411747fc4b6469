/**
 The words the create-table engines use: none breaks at a space or a line, no type is a
 keyword, and every auto-increment clause names the key once.
 */
module CreateTableWords {
  import opened Options
  import SqlText
  import opened CreateTable

  predicate NoBreak(w: string) {
    ' ' !in w && '\n' !in w
  }

  predicate LastWord(w: string) {
    NoBreak(w) && w != "" && w[|w| - 1] != ','
  }

  predicate IsKeyword(w: string) {
    w == "PRIMARY" || w == "NOT" || w == "UNIQUE" || w == AUTO_INCREMENT
  }

  predicate TypeWord(w: string) {
    LastWord(w) && !IsKeyword(w)
  }

  lemma CommonTypeWords()
    ensures TypeWord("VARCHAR(255)") && TypeWord("TEXT") && TypeWord("INTEGER")
  {
  }

  lemma WideTypeWords()
    ensures TypeWord("BIGINT") && TypeWord("BOOLEAN") && TypeWord("TIMESTAMP")
  {
  }

  lemma DateTypeWords()
    ensures TypeWord("DATE") && TypeWord("JSONB") && TypeWord("UUID")
  {
  }

  lemma DecimalTypeWords()
    ensures TypeWord("DECIMAL(10,2)") && TypeWord("INT") && TypeWord("JSON")
  {
  }

  lemma FixedTypeWords()
    ensures TypeWord("CHAR(36)") && TypeWord("NVARCHAR(MAX)") && TypeWord("BIT")
  {
  }

  lemma ServerTypeWords()
    ensures TypeWord("DATETIME2") && TypeWord("UNIQUEIDENTIFIER") && TypeWord("VARCHAR2(255)")
  {
  }

  lemma LargeTypeWords()
    ensures TypeWord("CLOB") && TypeWord("NUMBER(19)") && TypeWord("NUMBER(1)")
  {
  }

  lemma RawTypeWords()
    ensures TypeWord("RAW(16)") && TypeWord("NUMBER(10,2)") && TypeWord("REAL")
  {
  }

  lemma BlobTypeWords()
    ensures TypeWord("BLOB") && TypeWord("NUMERIC") && TypeWord("VARCHAR")
  {
  }

  lemma KeyWords()
    ensures LastWord("PRIMARY") && LastWord("KEY") && LastWord("NOT")
  {
  }

  lemma NullWords()
    ensures LastWord("NULL") && LastWord("UNIQUE") && LastWord("GENERATED")
  {
  }

  lemma DefaultWords()
    ensures LastWord("BY") && LastWord("DEFAULT") && LastWord("AS")
  {
  }

  lemma IdentityWords()
    ensures LastWord("IDENTITY") && LastWord("AUTO_INCREMENT") && LastWord("IDENTITY(1,1)")
  {
  }

  lemma NumberWords()
    ensures LastWord("AUTOINCREMENT") && LastWord("NUMBER")
  {
  }

  predicate TwoWords(words: seq<string>, i: nat, a: string, b: string) {
    i + 1 < |words| && words[i] == a && words[i + 1] == b
  }

  /** The clause says PRIMARY KEY once, at `k`, and neither NOT nor UNIQUE. */
  predicate KeyClause(words: seq<string>, k: nat) {
    && TwoWords(words, k, "PRIMARY", "KEY")
    && (forall i | 0 <= i < |words| :: words[i] == "PRIMARY" ==> i == k)
    && "NOT" !in words && "UNIQUE" !in words && AUTO_INCREMENT !in words
  }

  ghost predicate GoodTypes(types: seq<string>) {
    forall t <- types :: TypeWord(t)
  }

  ghost predicate GoodClause(clause: seq<string>) {
    (forall w <- clause :: LastWord(w)) && exists k :: KeyClause(clause, k)
  }

  ghost predicate GoodWords(e: Engine) {
    GoodTypes(e.types) && (e.autoIncrement.Some? ==> GoodClause(e.autoIncrement.value))
  }

  lemma IdentityClause(typ: string)
    requires typ == "INTEGER" || typ == "NUMBER"
    ensures KeyClause([typ, "GENERATED", "BY", "DEFAULT", "AS", "IDENTITY", "PRIMARY", "KEY"], 6)
  {
    assert typ[1] == 'N' || typ[1] == 'U';
  }

  lemma PostgresTypes()
    ensures GoodTypes(POSTGRES.types)
  {
    CommonTypeWords(); WideTypeWords(); DateTypeWords(); DecimalTypeWords();
  }

  lemma PostgresClause()
    ensures GoodClause(POSTGRES.autoIncrement.value)
  {
    IdentityClause("INTEGER");
    CommonTypeWords(); KeyWords(); NullWords(); DefaultWords(); IdentityWords();
  }

  lemma MysqlTypes()
    ensures GoodTypes(MYSQL.types)
  {
    CommonTypeWords(); WideTypeWords(); DateTypeWords(); DecimalTypeWords(); FixedTypeWords();
  }

  lemma MysqlClause()
    ensures GoodClause(MYSQL.autoIncrement.value)
  {
    assert KeyClause(MYSQL.autoIncrement.value, 2);
    DecimalTypeWords(); KeyWords(); IdentityWords();
  }

  lemma MssqlTypes()
    ensures GoodTypes(MSSQL.types)
  {
    CommonTypeWords(); WideTypeWords(); DateTypeWords(); DecimalTypeWords(); FixedTypeWords(); ServerTypeWords();
  }

  lemma MssqlClause()
    ensures GoodClause(MSSQL.autoIncrement.value)
  {
    assert KeyClause(MSSQL.autoIncrement.value, 2);
    DecimalTypeWords(); KeyWords(); IdentityWords();
  }

  lemma OracleTypes()
    ensures GoodTypes(ORACLE.types)
  {
    CommonTypeWords(); WideTypeWords(); DateTypeWords(); ServerTypeWords(); LargeTypeWords(); RawTypeWords();
  }

  lemma OracleClause()
    ensures GoodClause(ORACLE.autoIncrement.value)
  {
    IdentityClause("NUMBER");
    KeyWords(); NullWords(); DefaultWords(); IdentityWords(); NumberWords();
  }

  lemma SqliteWords()
    ensures GoodWords(SQLITE)
  {
    assert KeyClause(SQLITE.autoIncrement.value, 1);
    CommonTypeWords(); RawTypeWords(); BlobTypeWords(); KeyWords(); NumberWords();
  }

  lemma DuckdbWords()
    ensures GoodWords(DUCKDB)
  {
    assert KeyClause(DUCKDB.autoIncrement.value, 1);
    CommonTypeWords(); WideTypeWords(); DateTypeWords(); DecimalTypeWords(); KeyWords();
  }

  lemma TrinoWords()
    ensures GoodWords(TRINO)
  {
    CommonTypeWords(); WideTypeWords(); DateTypeWords(); DecimalTypeWords(); BlobTypeWords();
  }

  lemma EnginesHaveGoodWords(dbType: Option<SqlText.Dialect>)
    ensures GoodWords(EngineOf(dbType))
  {
    EveryEngine(dbType);
    PostgresTypes(); PostgresClause(); MysqlTypes(); MysqlClause(); MssqlTypes(); MssqlClause();
    OracleTypes(); OracleClause(); SqliteWords(); DuckdbWords(); TrinoWords();
  }
}
