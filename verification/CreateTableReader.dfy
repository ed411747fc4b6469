/**
 A reader of the create-table form's SQL, line by line and word by word, and the proof that
 it finds exactly what the form shows.
 */
module CreateTableReader {
  import opened Options
  import opened Sequences
  import opened Strings
  import SqlText
  import opened CreateTable
  import opened CreateTableSql
  import opened CreateTableWords
  import opened CreateTableClicks

  // ---------------------------------------------------------------------------
  // Reading

  function DropComma(line: string): string {
    if line != "" && line[|line| - 1] == ',' then line[..|line| - 1] else line
  }

  /** The words of a column's line, without its indent. */
  function WordsOf(line: string): seq<string> {
    var text := DropComma(line);
    if |text| < 2 then [] else SplitOn(text[2..], ' ')
  }

  const HEADER := "CREATE TABLE "
  const CLOSE := ");"

  function AfterHeader(lines: seq<string>): seq<string> {
    if lines == [] then [] else if Starts(lines[0], HEADER) then lines[1..] else AfterHeader(lines[1..])
  }

  function UntilClose(lines: seq<string>): seq<seq<string>> {
    if lines == [] || lines[0] == CLOSE then [] else [WordsOf(lines[0])] + UntilClose(lines[1..])
  }

  /** The words of every column the statement declares. */
  function ReadColumns(sql: string): seq<seq<string>> {
    UntilClose(AfterHeader(SplitOn(sql, '\n')))
  }

  /** Where a column says PRIMARY KEY. */
  function KeyPlaces(words: seq<string>): set<nat> {
    set i | 0 <= i < |words| && TwoWords(words, i, "PRIMARY", "KEY")
  }

  predicate SaysNotNull(words: seq<string>) {
    exists i | 0 <= i < |words| :: TwoWords(words, i, "NOT", "NULL")
  }

  /** What the form shows of a column, found in its words. */
  predicate Says(words: seq<string>, col: Column, e: Engine) {
    && |words| >= 2 && words[0] == col.name
    && AUTO_INCREMENT !in words[1..]
    && (if IsAuto(e, col) then e.autoIncrement.value <= words[1..] else words[1] == col.typ && col.typ in e.types)
    && |KeyPlaces(words)| == (if col.isPrimary then 1 else 0)
    && (SaysNotNull(words) <==> !col.isNullable && !col.isPrimary)
    && ("UNIQUE" in words <==> col.isUnique && !col.isPrimary)
  }

  // ---------------------------------------------------------------------------
  // One column

  lemma NamesAreNoKeywords(w: string)
    requires IsName(w)
    ensures w != "PRIMARY" && w != "NOT" && w != "UNIQUE" && w != "NULL" && w != "KEY"
  {
    assert w != "" ==> IsNameChar(w[0]);
  }

  /** A clause that says the key once still does between a name and words that say nothing of it. */
  lemma ClauseSays(name: string, clause: seq<string>, tail: seq<string>, k: nat)
    requires IsName(name) && KeyClause(clause, k)
    requires forall w <- tail :: !IsKeyword(w)
    ensures
      var words := [name] + clause + tail;
      && KeyPlaces(words) == {k + 1} && !SaysNotNull(words)
      && "UNIQUE" !in words && AUTO_INCREMENT !in words[1..]
  {
    var words := [name] + clause + tail;
    NamesAreNoKeywords(name);
    assert words[1..] == clause + tail;
    assert forall i | 0 <= i < |clause| :: words[i + 1] == clause[i];
    assert TwoWords(words, k + 1, "PRIMARY", "KEY");
    forall i | 0 <= i < |words| ensures words[i] == "PRIMARY" ==> i == k + 1 {
      if i > |clause| {
        assert words[i] == tail[i - |clause| - 1] && words[i] in tail;
      } else if i > 0 {
        assert words[i] == clause[i - 1];
      }
    }
    assert "NOT" !in words;
  }

  lemma AutoSays(e: Engine, table: string, col: Column)
    requires GoodWords(e) && GoodColumn(col, e) && IsAuto(e, col)
    ensures Says(ColumnWords(e, table, col), col, e)
  {
    var clause := e.autoIncrement.value;
    var k: nat :| KeyClause(clause, k);
    var tail := if e.autoIncrementSequence then ["DEFAULT", NextValue(SequenceOf(table, col))] else [];
    assert NextValue(SequenceOf(table, col))[0] == 'n';
    ClauseSays(col.name, clause, tail, k);
    assert clause <= ([col.name] + clause + tail)[1..];
  }

  lemma PlainSays(e: Engine, table: string, col: Column)
    requires GoodEngine(e) && GoodWords(e) && GoodColumn(col, e) && !IsAuto(e, col)
    ensures Says(ColumnWords(e, table, col), col, e)
  {
    var words := ColumnWords(e, table, col);
    NamesAreNoKeywords(col.name);
    assert TypeWord(col.typ);
    if col.isPrimary {
      assert words == [col.name, col.typ, "PRIMARY", "KEY"];
      assert TwoWords(words, 2, "PRIMARY", "KEY");
      assert KeyPlaces(words) == {2};
    } else {
      assert KeyPlaces(words) == {};
      assert !col.isNullable ==> TwoWords(words, 2, "NOT", "NULL");
    }
  }

  /** Every word is whole, and the last one does not end in a comma. */
  predicate Readable(words: seq<string>) {
    && words != [] && (forall w <- words :: NoBreak(w))
    && words[|words| - 1] != "" && words[|words| - 1][|words[|words| - 1]| - 1] != ','
  }

  lemma NamesAreWhole(w: string)
    requires IsName(w)
    ensures NoBreak(w)
  {
    assert !IsNameChar(' ') && !IsNameChar('\n');
  }

  lemma NextValueIsWhole(sequence: string)
    requires IsName(sequence)
    ensures LastWord(NextValue(sequence))
  {
    NamesAreWhole(sequence);
    var w := NextValue(sequence);
    assert NoBreak("nextval('") && NoBreak("')");
  }

  lemma SequenceIsName(table: string, col: Column)
    requires IsName(table) && IsName(col.name)
    ensures IsName(SequenceOf(table, col))
  {
    assert IsName("_") && IsName("_seq");
  }

  lemma WholeWords(words: seq<string>)
    requires |words| >= 2 && NoBreak(words[0]) && forall i | 1 <= i < |words| :: LastWord(words[i])
    ensures Readable(words)
  {
    assert LastWord(words[|words| - 1]);
  }

  lemma WholeClause(name: string, clause: seq<string>, tail: seq<string>)
    requires NoBreak(name) && clause != []
    requires (forall w <- clause :: LastWord(w)) && (forall w <- tail :: LastWord(w))
    ensures Readable([name] + clause + tail)
  {
    var words := [name] + clause + tail;
    forall i | 1 <= i < |words| ensures LastWord(words[i]) {
      assert words[i] == if i <= |clause| then clause[i - 1] else tail[i - 1 - |clause|];
    }
    WholeWords(words);
  }

  lemma AutoIsReadable(e: Engine, table: string, col: Column)
    requires GoodEngine(e) && GoodWords(e) && GoodColumn(col, e) && IsName(table) && IsAuto(e, col)
    ensures Readable(ColumnWords(e, table, col))
  {
    NamesAreWhole(col.name);
    SequenceIsName(table, col);
    NextValueIsWhole(SequenceOf(table, col));
    DefaultWords();
    WholeClause(col.name, e.autoIncrement.value,
                if e.autoIncrementSequence then ["DEFAULT", NextValue(SequenceOf(table, col))] else []);
  }

  lemma PlainIsReadable(e: Engine, table: string, col: Column)
    requires GoodEngine(e) && GoodWords(e) && GoodColumn(col, e) && !IsAuto(e, col)
    ensures Readable(ColumnWords(e, table, col))
  {
    NamesAreWhole(col.name);
    KeyWords();
    NullWords();
    assert TypeWord(col.typ);
    WholeWords(ColumnWords(e, table, col));
  }

  // ---------------------------------------------------------------------------
  // One line

  lemma {:induction false} JoinLacks(parts: seq<string>, separator: string, c: char)
    requires c !in separator && forall part <- parts :: c !in part
    ensures c !in Join(parts, separator)
  {
    if |parts| > 1 {
      JoinLacks(parts[1..], separator, c);
    }
  }

  lemma {:induction false} JoinEnds(parts: seq<string>, separator: string)
    requires parts != [] && parts[|parts| - 1] != ""
    ensures
      var text, last := Join(parts, separator), parts[|parts| - 1];
      text != "" && text[|text| - 1] == last[|last| - 1]
  {
    if |parts| > 1 {
      JoinEnds(parts[1..], separator);
    }
  }

  lemma IndentedReads(words: seq<string>)
    requires Readable(words)
    ensures var line := Indented(words); |line| > 2 && line[|line| - 1] != ',' && SplitOn(line[2..], ' ') == words
  {
    JoinEnds(words, " ");
    SplitJoins(words, ' ');
    assert Indented(words)[2..] == Join(words, " ");
  }

  lemma CommaIsDropped(line: string)
    requires line != "" && line[|line| - 1] != ','
    ensures DropComma(line) == line && DropComma(line + ",") == line
  {
    assert (line + ",")[..|line|] == line;
  }

  /** A column's line reads back as its words, with the comma that ends it or without. */
  lemma LineReads(words: seq<string>)
    requires Readable(words)
    ensures WordsOf(Indented(words)) == words && WordsOf(Indented(words) + ",") == words
    ensures '\n' !in Indented(words)
  {
    IndentedReads(words);
    CommaIsDropped(Indented(words));
    JoinLacks(words, " ", '\n');
  }

  // ---------------------------------------------------------------------------
  // The statement

  /** All lines but the last end in a comma. */
  function CommaLines(texts: seq<string>): (r: seq<string>)
    ensures |r| == |texts|
  {
    if |texts| <= 1 then texts else [texts[0] + ","] + CommaLines(texts[1..])
  }

  lemma {:induction false} CommasAreJoined(texts: seq<string>)
    ensures Join(texts, ",\n") == Join(CommaLines(texts), "\n")
  {
    if |texts| > 1 {
      CommasAreJoined(texts[1..]);
      assert CommaLines(texts)[1..] == CommaLines(texts[1..]);
      assert texts[0] + ",\n" == (texts[0] + ",") + "\n";
    }
  }

  lemma {:induction false} JoinConcat(a: seq<string>, b: seq<string>, separator: string)
    requires a != [] && b != []
    ensures Join(a + b, separator) == Join(a, separator) + separator + Join(b, separator)
  {
    if |a| == 1 {
      assert (a + b)[1..] == b;
    } else {
      JoinConcat(a[1..], b, separator);
      assert (a + b)[1..] == a[1..] + b;
      var rest := Join(a[1..], separator);
      assert a[0] + separator + (rest + separator + Join(b, separator)) == (a[0] + separator + rest) + separator + Join(b, separator);
    }
  }

  function Header(table: string): string {
    HEADER + table + " ("
  }

  function TableLines(table: string, texts: seq<string>): seq<string> {
    [Header(table)] + CommaLines(texts) + [CLOSE]
  }

  lemma TableIsItsLines(table: string, texts: seq<string>)
    requires texts != []
    ensures "CREATE TABLE " + table + " (\n" + Join(texts, ",\n") + "\n);" == Join(TableLines(table, texts), "\n")
  {
    CommasAreJoined(texts);
    var body := Join(CommaLines(texts), "\n");
    JoinConcat([Header(table)] + CommaLines(texts), [CLOSE], "\n");
    JoinConcat([Header(table)], CommaLines(texts), "\n");
    assert "CREATE TABLE " + table + " (\n" == Header(table) + "\n";
    assert "\n);" == "\n" + CLOSE;
    assert Header(table) + "\n" + body + ("\n" + CLOSE) == Header(table) + "\n" + body + "\n" + CLOSE;
  }

  function SqlLines(form: Form): seq<string> {
    Prelude(form.Engine(), form.tableName, form.columns)
    + TableLines(form.tableName, ColumnTexts(form.Engine(), form.tableName, form.columns))
  }

  lemma SqlIsItsLines(form: Form)
    requires form.columns != [] && Trim(form.tableName) != ""
    ensures SqlOf(form) == Join(SqlLines(form), "\n")
  {
    var e, table, cols := form.Engine(), form.tableName, form.columns;
    var texts, prelude := ColumnTexts(e, table, cols), Prelude(e, table, cols);
    TableIsItsLines(table, texts);
    if prelude != [] {
      JoinConcat(prelude, TableLines(table, texts), "\n");
    } else {
      assert SqlLines(form) == TableLines(table, texts);
    }
  }

  // ---------------------------------------------------------------------------
  // Reading it back

  const SEQUENCE := "CREATE SEQUENCE IF NOT EXISTS "

  predicate IsSequenceLine(line: string) {
    Starts(line, SEQUENCE) && '\n' !in line
  }

  lemma {:induction false} PreludeLines(e: Engine, table: string, cols: seq<Column>)
    requires IsName(table) && forall i | 0 <= i < |cols| :: IsName(cols[i].name)
    ensures forall line <- Prelude(e, table, cols) :: IsSequenceLine(line)
  {
    if cols != [] {
      var n := |cols| - 1;
      PreludeLines(e, table, cols[..n]);
      SequenceIsName(table, cols[n]);
      NamesAreWhole(SequenceOf(table, cols[n]));
      StripPrefix(SEQUENCE, SequenceOf(table, cols[n]) + ";");
      assert SEQUENCE + (SequenceOf(table, cols[n]) + ";") == SequenceLine(table, cols[n]);
      assert '\n' !in SEQUENCE;
    }
  }

  lemma {:induction false} PreludeIsSkipped(prelude: seq<string>, header: string, rest: seq<string>)
    requires (forall line <- prelude :: IsSequenceLine(line)) && Starts(header, HEADER)
    ensures AfterHeader(prelude + ([header] + rest)) == rest
  {
    var lines := prelude + ([header] + rest);
    if prelude == [] {
      assert lines == [header] + rest && lines[1..] == rest;
    } else {
      PreludeIsSkipped(prelude[1..], header, rest);
      assert lines[1..] == prelude[1..] + ([header] + rest);
      assert IsSequenceLine(prelude[0]);
      assert lines[0][7] == SEQUENCE[7];
      StripOther(lines[0], HEADER, 7);
    }
  }

  lemma FirstLineIsRead(words: seq<string>, comma: string, rest: seq<string>)
    requires Readable(words) && (comma == "" || comma == ",")
    ensures UntilClose([Indented(words) + comma] + rest) == [words] + UntilClose(rest)
    ensures '\n' !in Indented(words) + comma
  {
    LineReads(words);
    var line := Indented(words);
    assert line + "" == line;
    var lines := [line + comma] + rest;
    assert lines[0][0] == ' ' && lines[1..] == rest;
  }

  lemma FirstComma(all: seq<seq<string>>, comma: string)
    requires all != [] && comma == if |all| == 1 then "" else ","
    ensures CommaLines(Texts(all)) == [Indented(all[0]) + comma] + CommaLines(Texts(all[1..]))
  {
    assert Texts(all)[1..] == Texts(all[1..]);
    assert Indented(all[0]) + "" == Indented(all[0]);
  }

  lemma FirstIsRead(all: seq<seq<string>>)
    requires all != [] && Readable(all[0])
    ensures UntilClose(CommaLines(Texts(all)) + [CLOSE]) == [all[0]] + UntilClose(CommaLines(Texts(all[1..])) + [CLOSE])
  {
    var comma, rest := if |all| == 1 then "" else ",", CommaLines(Texts(all[1..]));
    FirstComma(all, comma);
    Assoc([Indented(all[0]) + comma], rest, [CLOSE]);
    FirstLineIsRead(all[0], comma, rest + [CLOSE]);
  }

  lemma {:induction false} LinesAreRead(all: seq<seq<string>>)
    requires forall words <- all :: Readable(words)
    ensures UntilClose(CommaLines(Texts(all)) + [CLOSE]) == all
  {
    if all != [] {
      LinesAreRead(all[1..]);
      FirstIsRead(all);
    }
  }

  lemma {:induction false} LinesHaveNoFeed(all: seq<seq<string>>)
    requires forall words <- all :: Readable(words)
    ensures forall line <- CommaLines(Texts(all)) :: '\n' !in line
  {
    if all != [] {
      var comma := if |all| == 1 then "" else ",";
      FirstLineIsRead(all[0], comma, []);
      LinesHaveNoFeed(all[1..]);
      FirstComma(all, comma);
    }
  }

  function Texts(all: seq<seq<string>>): (r: seq<string>)
    ensures |r| == |all|
  {
    if all == [] then [] else [Indented(all[0])] + Texts(all[1..])
  }

  function AllWords(form: Form): (r: seq<seq<string>>)
    ensures |r| == |form.columns|
  {
    seq(|form.columns|, i requires 0 <= i < |form.columns| => ColumnWords(form.Engine(), form.tableName, form.columns[i]))
  }

  lemma WordsAreReadable(form: Form)
    requires GoodForm(form)
    ensures forall words <- AllWords(form) :: Readable(words)
  {
    var e := form.Engine();
    EnginesAreGood(form.dbType);
    EnginesHaveGoodWords(form.dbType);
    forall i | 0 <= i < |form.columns| ensures Readable(AllWords(form)[i]) {
      if IsAuto(e, form.columns[i]) {
        AutoIsReadable(e, form.tableName, form.columns[i]);
      } else {
        PlainIsReadable(e, form.tableName, form.columns[i]);
      }
    }
  }

  lemma LinesReadBack(prelude: seq<string>, table: string, all: seq<seq<string>>)
    requires IsName(table) && (forall words <- all :: Readable(words)) && (forall line <- prelude :: IsSequenceLine(line))
    ensures
      var lines := prelude + TableLines(table, Texts(all));
      SplitOn(Join(lines, "\n"), '\n') == lines && ReadColumns(Join(lines, "\n")) == all
  {
    var rest := CommaLines(Texts(all)) + [CLOSE];
    var lines := prelude + ([Header(table)] + rest);
    LinesAreRead(all);
    LinesHaveNoFeed(all);
    HeaderIsALine(table);
    forall line | line in lines ensures '\n' !in line {
      assert line in prelude || line == Header(table) || line in CommaLines(Texts(all)) || line == CLOSE;
    }
    SplitJoins(lines, '\n');
    PreludeIsSkipped(prelude, Header(table), rest);
    assert prelude + TableLines(table, Texts(all)) == lines;
  }

  lemma HeaderIsALine(table: string)
    requires IsName(table)
    ensures Starts(Header(table), HEADER) && '\n' !in Header(table) && '\n' !in CLOSE
  {
    NamesAreWhole(table);
    StripPrefix(HEADER, table + " (");
    assert Header(table) == HEADER + (table + " (");
  }

  lemma {:induction false} TextAt(all: seq<seq<string>>, i: nat)
    requires i < |all|
    ensures Texts(all)[i] == Indented(all[i])
  {
    if i > 0 {
      TextAt(all[1..], i - 1);
    }
  }

  lemma {:induction false} ColumnTextAt(e: Engine, table: string, cols: seq<Column>, i: nat)
    requires i < |cols|
    ensures ColumnTexts(e, table, cols)[i] == ColumnText(e, table, cols[i])
  {
    if i < |cols| - 1 {
      ColumnTextAt(e, table, cols[..|cols| - 1], i);
    }
  }

  lemma SameTexts(form: Form)
    ensures SqlLines(form) ==
      Prelude(form.Engine(), form.tableName, form.columns) + TableLines(form.tableName, Texts(AllWords(form)))
  {
    var e, table, cols := form.Engine(), form.tableName, form.columns;
    forall i | 0 <= i < |cols| ensures Texts(AllWords(form))[i] == ColumnTexts(e, table, cols)[i] {
      TextAt(AllWords(form), i);
      ColumnTextAt(e, table, cols, i);
    }
    assert Texts(AllWords(form)) == ColumnTexts(e, table, cols);
  }

  lemma SqlLinesReadBack(form: Form)
    requires GoodForm(form)
    ensures SplitOn(Join(SqlLines(form), "\n"), '\n') == SqlLines(form)
    ensures ReadColumns(Join(SqlLines(form), "\n")) == AllWords(form)
  {
    SameTexts(form);
    WordsAreReadable(form);
    PreludeLines(form.Engine(), form.tableName, form.columns);
    LinesReadBack(Prelude(form.Engine(), form.tableName, form.columns), form.tableName, AllWords(form));
  }

  /** The statement reads back column by column, word for word. */
  lemma SqlReadsBack(form: Form)
    requires GoodForm(form) && form.tableName != ""
    ensures SplitOn(SqlOf(form), '\n') == SqlLines(form)
    ensures ReadColumns(SqlOf(form)) == AllWords(form)
  {
    NameIsTrimmed(form.tableName);
    SqlIsItsLines(form);
    SqlLinesReadBack(form);
  }

  /**
   After any clicks, what the SQL says of each column is what the form shows: its type and
   never the sentinel, PRIMARY KEY once exactly where the key box is ticked, NOT NULL and
   UNIQUE exactly where the key does not imply them already.
   */
  lemma SqlSaysTheForm(first: Option<SqlText.Dialect>, trace: seq<Event>, i: nat)
    requires Valid(first, trace) && Exec(first, trace).tableName != ""
    requires i < |Exec(first, trace).columns|
    ensures
      var form := Exec(first, trace);
      var read := ReadColumns(SqlOf(form));
      |read| == |form.columns| && Says(read[i], form.columns[i], form.Engine())
  {
    var form := Exec(first, trace);
    FormStaysGood(first, trace);
    SqlReadsBack(form);
    var e := form.Engine();
    EnginesAreGood(form.dbType);
    EnginesHaveGoodWords(form.dbType);
    if IsAuto(e, form.columns[i]) {
      AutoSays(e, form.tableName, form.columns[i]);
    } else {
      PlainSays(e, form.tableName, form.columns[i]);
    }
  }

  lemma {:induction false} PreludeHas(e: Engine, table: string, cols: seq<Column>, i: nat)
    requires i < |cols| && IsAuto(e, cols[i]) && e.autoIncrementSequence
    ensures SequenceLine(table, cols[i]) in Prelude(e, table, cols)
  {
    if i < |cols| - 1 {
      PreludeHas(e, table, cols[..|cols| - 1], i);
    }
  }

  /** A sequence that a column draws from is created ahead of the table. */
  lemma SequencesComeFirst(form: Form, i: nat)
    requires GoodForm(form) && form.tableName != "" && i < |form.columns|
    requires IsAuto(form.Engine(), form.columns[i]) && form.Engine().autoIncrementSequence
    ensures NextValue(SequenceOf(form.tableName, form.columns[i])) in AllWords(form)[i]
    ensures
      var lines := SplitOn(SqlOf(form), '\n');
      exists j, k | 0 <= j < k < |lines| ::
        lines[j] == SequenceLine(form.tableName, form.columns[i]) && lines[k] == Header(form.tableName)
  {
    SqlReadsBack(form);
    DrawsByName(form.Engine(), form.tableName, form.columns[i]);
    PreludeHas(form.Engine(), form.tableName, form.columns, i);
    AheadOfHeader(Prelude(form.Engine(), form.tableName, form.columns), form.tableName,
                  ColumnTexts(form.Engine(), form.tableName, form.columns), SequenceLine(form.tableName, form.columns[i]));
  }

  lemma DrawsByName(e: Engine, table: string, col: Column)
    requires IsAuto(e, col) && e.autoIncrementSequence
    ensures NextValue(SequenceOf(table, col)) in ColumnWords(e, table, col)
  {
    var words := ColumnWords(e, table, col);
    assert words[|words| - 1] == NextValue(SequenceOf(table, col));
  }

  lemma AheadOfHeader(prelude: seq<string>, table: string, texts: seq<string>, line: string)
    requires line in prelude
    ensures
      var lines := prelude + TableLines(table, texts);
      exists j, k | 0 <= j < k < |lines| :: lines[j] == line && lines[k] == Header(table)
  {
    var lines := prelude + TableLines(table, texts);
    var j :| 0 <= j < |prelude| && prelude[j] == line;
    assert lines[j] == line && lines[|prelude|] == Header(table);
  }

  /**
   And what the form shows is what was clicked: the SQL says of each column that is still there its
   name, its type and its key, null and unique boxes as they were last set.
   */
  lemma SqlSaysTheClicks(first: Option<SqlText.Dialect>, trace: seq<Event>, k: nat)
    requires Valid(first, trace) && TableTold(first, trace) != "" && k < |IdsTold(first, trace)|
    ensures
      var read := ReadColumns(SqlOf(Exec(first, trace)));
      && |read| == |IdsTold(first, trace)|
      && Says(read[k], ColumnTold(first, trace, IdsTold(first, trace)[k]), EngineOf(DbTold(first, trace)))
  {
    FormIsAsTold(first, trace);
    ColumnsTold(first, trace, IdsTold(first, trace));
    SqlSaysTheForm(first, trace, k);
  }

  /** The words of the key a form begins with. */
  function FirstKeyWords(dbType: Option<SqlText.Dialect>, table: string): seq<string> {
    ["id"] + match dbType
      case Some(Mysql) => ["INT", "AUTO_INCREMENT", "PRIMARY", "KEY"]
      case Some(Mssql) => ["INT", "IDENTITY(1,1)", "PRIMARY", "KEY"]
      case Some(Oracle) => ["NUMBER", "GENERATED", "BY", "DEFAULT", "AS", "IDENTITY", "PRIMARY", "KEY"]
      case Some(Sqlite) => ["INTEGER", "PRIMARY", "KEY", "AUTOINCREMENT"]
      case Some(Libsql) => ["INTEGER", "PRIMARY", "KEY", "AUTOINCREMENT"]
      case Some(Duckdb) => ["INTEGER", "PRIMARY", "KEY", "DEFAULT", "nextval('" + (table + "_id_seq')")]
      case Some(Trino) => ["INTEGER", "NOT", "NULL"]
      case _ => ["INTEGER", "GENERATED", "BY", "DEFAULT", "AS", "IDENTITY", "PRIMARY", "KEY"]
  }

  /** A new form, once its table is named, makes a key that numbers itself, as each engine spells that; Trino has none. */
  lemma FreshFormReads(dbType: Option<SqlText.Dialect>, table: string)
    requires IsName(table) && table != ""
    ensures ReadColumns(SqlOf(Start(dbType).(tableName := table))) == [FirstKeyWords(dbType, table)]
  {
    var form := Start(dbType).(tableName := table);
    FreshIsGood(dbType, table);
    SqlReadsBack(form);
    FirstKeyIsSpelled(dbType, table);
    OnlyWords(form);
  }

  /** On DuckDB the sequence that key draws from is made first, under the table's name and the column's. */
  lemma FreshSequenceFirst(table: string)
    requires IsName(table) && table != ""
    ensures SplitOn(SqlOf(Start(Some(SqlText.Duckdb)).(tableName := table)), '\n')[0]
         == "CREATE SEQUENCE IF NOT EXISTS " + (table + "_id_seq;")
  {
    var form := Start(Some(SqlText.Duckdb)).(tableName := table);
    FreshIsGood(Some(SqlText.Duckdb), table);
    SqlReadsBack(form);
    FreshPrelude(form, table);
  }

  lemma FreshIsGood(dbType: Option<SqlText.Dialect>, table: string)
    requires IsName(table)
    ensures GoodForm(Start(dbType).(tableName := table))
  {
    DefaultIsGood(dbType);
  }

  lemma FreshPrelude(form: Form, table: string)
    requires form == Start(Some(SqlText.Duckdb)).(tableName := table)
    ensures SqlLines(form)[0] == "CREATE SEQUENCE IF NOT EXISTS " + (table + "_id_seq;")
  {
    FirstSequence(table);
    PreludeFirst(form, SequenceLine(table, DefaultColumn(DUCKDB)));
  }

  lemma PreludeFirst(form: Form, line: string)
    requires Prelude(form.Engine(), form.tableName, form.columns) == [line]
    ensures SqlLines(form)[0] == line
  {
  }

  lemma OnlyWords(form: Form)
    requires |form.columns| == 1
    ensures AllWords(form) == [ColumnWords(form.Engine(), form.tableName, form.columns[0])]
  {
  }

  lemma FirstKeyIsSpelled(dbType: Option<SqlText.Dialect>, table: string)
    ensures ColumnWords(EngineOf(dbType), table, DefaultColumn(EngineOf(dbType))) == FirstKeyWords(dbType, table)
  {
    if dbType == Some(SqlText.Duckdb) {
      FirstKeyDraws(table);
    } else if dbType != Some(SqlText.Trino) {
      FirstKeyClause(EngineOf(dbType), table);
    }
  }

  lemma FirstKeyClause(e: Engine, table: string)
    requires e.autoIncrement.Some? && e.supportsConstraints && !e.autoIncrementSequence
    ensures ColumnWords(e, table, DefaultColumn(e)) == ["id"] + e.autoIncrement.value
  {
  }

  lemma FirstKeyDraws(table: string)
    ensures ColumnWords(DUCKDB, table, DefaultColumn(DUCKDB)) == FirstKeyWords(Some(SqlText.Duckdb), table)
  {
    var col := DefaultColumn(DUCKDB);
    assert SequenceOf(table, col) == table + "_id_seq";
    assert NextValue(table + "_id_seq") == "nextval('" + (table + "_id_seq')");
  }

  lemma FirstSequence(table: string)
    ensures
      var col := DefaultColumn(DUCKDB);
      && Prelude(DUCKDB, table, [col]) == [SequenceLine(table, col)]
      && SequenceLine(table, col) == "CREATE SEQUENCE IF NOT EXISTS " + (table + "_id_seq;")
  {
    var col := DefaultColumn(DUCKDB);
    assert [col][..0] == [] && Prelude(DUCKDB, table, []) == [];
    assert SequenceOf(table, col) == table + "_id_seq";
  }
}
