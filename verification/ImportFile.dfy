/** What the script of an import says, in terms of the file and the choices made for it. */
module ImportFile {
  import opened Options
  import opened Strings
  import opened SqlText
  import opened ObjectPath
  import opened ImportSql
  import opened ImportScript
  import Csv

  /** Row `r` is in batch `r / 100`, at place `r % 100`. */
  lemma {:induction false} BatchAt(rows: seq<ImportSql.Row>, i: nat, r: nat)
    requires i <= r < |rows|
    ensures (r - i) / 100 < |Batches(rows, i)|
    ensures (r - i) % 100 < |Batches(rows, i)[(r - i) / 100]|
    ensures Batches(rows, i)[(r - i) / 100][(r - i) % 100] == rows[r]
    decreases |rows| - i
  {
    var j := Min(i + 100, |rows|);
    var first, more := rows[i..j], Batches(rows, i + 100);
    assert Batches(rows, i) == [first] + more;
    if r < i + 100 {
      assert (r - i) / 100 == 0 && (r - i) % 100 == r - i;
      assert first[r - i] == rows[r];
    } else {
      BatchAt(rows, i + 100, r);
      HundredLess(r - i);
      assert ([first] + more)[(r - i) / 100] == more[(r - i - 100) / 100];
    }
  }

  lemma HundredLess(n: nat)
    requires n >= 100
    ensures n / 100 == (n - 100) / 100 + 1 && n % 100 == (n - 100) % 100
  {
  }

  lemma {:induction false} DefAt(columns: seq<string>, types: seq<SqlType>, k: nat)
    requires |columns| == |types| && k < |columns|
    ensures Defs(columns, types)[k] == (columns[k], types[k])
  {
    if k > 0 {
      DefAt(columns[1..], types[1..], k - 1);
    }
  }

  /** The name a file's column is given: the one chosen for it, or else its own. */
  predicate NamedAs(columns: seq<string>, headers: seq<string>, mapping: map<string, string>) {
    && |columns| == |headers|
    && forall k | 0 <= k < |columns| ::
         columns[k] == match Get(mapping, headers[k])
                       case Some(chosen) => if chosen != "" then chosen else headers[k]
                       case None => headers[k]
  }

  /** The table the operator picked, or the dotted parts of the name typed; without one, `imported_data`. */
  predicate Addresses(path: seq<string>, target: Target) {
    match target
    case Existing(picked) => path == picked
    case New(name) => Join(path, ".") == (if name == "" then "imported_data" else name) && forall part <- path :: '.' !in part
  }

  /** A row as read: one token per cell, each saying its cell; a cell past the headers is text. */
  predicate SaysRow(tokens: seq<Token>, row: ImportSql.Row, types: seq<SqlType>) {
    && |tokens| == |row|
    && forall k | 0 <= k < |row| :: Says(tokens[k], row[k], if k < |types| then types[k] else TEXT)
  }

  predicate SaysCreate(said: Said, data: Csv.ParsedData, target: Target, mapping: map<string, string>) {
    && said.Create?
    && Addresses(said.table, target)
    && |said.defs| == |data.headers|
    && NamedAs(seq(|said.defs|, k requires 0 <= k < |said.defs| => said.defs[k].0), data.headers, mapping)
    && forall k | 0 <= k < |said.defs| :: said.defs[k].1 == ColumnTypes(data.headers, data.rows)[k]
  }

  predicate SaysInsert(said: Said, data: Csv.ParsedData, target: Target, mapping: map<string, string>) {
    said.Insert? && Addresses(said.table, target) && NamedAs(said.columns, data.headers, mapping)
  }

  /** How many of `n` rows batch `b` takes. */
  function RowsIn(n: nat, b: nat): nat {
    if n >= 100 * b + 100 then 100 else if n >= 100 * b then n - 100 * b else 0
  }

  lemma {:induction false} BatchSize(rows: seq<ImportSql.Row>, i: nat, b: nat)
    requires i <= |rows| && b < |Batches(rows, i)|
    ensures |Batches(rows, i)[b]| == RowsIn(|rows| - i, b)
    decreases |rows| - i
  {
    var more := Batches(rows, i + 100);
    assert Batches(rows, i) == [rows[i..Min(i + 100, |rows|)]] + more;
    if b > 0 {
      assert Batches(rows, i)[b] == more[b - 1];
      BatchSize(rows, i + 100, b - 1);
    }
  }

  lemma MeantAddress(target: Target)
    ensures Addresses(MeantPath(target), target)
  {
    if target.New? {
      var name := TargetIdentifier(target, None);
      JoinOfSplit(name, '.');
      PartsHoldNone(name, '.');
    }
  }

  lemma {:induction false} PartsHoldNone(text: string, c: char)
    ensures forall part <- SplitOn(text, c) :: c !in part
    decreases |text|
  {
    var k := RunLength(text, (x: char) => x != c);
    if k < |text| {
      PartsHoldNone(text[k + 1..], c);
    }
  }

  lemma MeantCreate(data: Csv.ParsedData, target: Target, mapping: map<string, string>)
    requires target.New?
    ensures Meant(data, target, mapping) != [] && SaysCreate(Meant(data, target, mapping)[0], data, target, mapping)
  {
    var columns, types := MappedHeaders(data.headers, mapping), ColumnTypes(data.headers, data.rows);
    MeantAddress(target);
    forall k | 0 <= k < |columns| ensures Defs(columns, types)[k] == (columns[k], types[k]) {
      DefAt(columns, types, k);
    }
  }

  lemma RowIsSaid(batch: seq<ImportSql.Row>, types: seq<SqlType>, k: nat)
    requires k < |batch|
    ensures SaysRow(RowTokens(batch, types)[k], batch[k], types)
  {
    forall m | 0 <= m < |batch[k]|
      ensures Says(RowTokens(batch, types)[k][m], batch[k][m], if m < |types| then types[m] else TEXT)
    {
      TokenSays(batch[k][m], TypeAt(types, m));
    }
  }

  /** Row `r` of the file is said by row `r % 100` of INSERT `r / 100`. */
  predicate SaysRowAt(inserts: seq<Said>, r: nat, row: ImportSql.Row, types: seq<SqlType>) {
    && r / 100 < |inserts|
    && inserts[r / 100].Insert?
    && r % 100 < |inserts[r / 100].rows|
    && SaysRow(inserts[r / 100].rows[r % 100], row, types)
  }

  lemma InsertAt(batches: seq<seq<ImportSql.Row>>, path: seq<string>, columns: seq<string>, types: seq<SqlType>, b: nat)
    requires b < |batches|
    ensures MeantInserts(batches, path, columns, types)[b] == Insert(path, columns, RowTokens(batches[b], types))
  {
  }

  lemma FileRowIsSaid(rows: seq<ImportSql.Row>, r: nat, batches: seq<seq<ImportSql.Row>>, inserts: seq<Said>,
                      path: seq<string>, columns: seq<string>, types: seq<SqlType>)
    requires batches == Batches(rows, 0) && inserts == MeantInserts(batches, path, columns, types) && r < |rows|
    ensures SaysRowAt(inserts, r, rows[r], types)
  {
    BatchAt(rows, 0, r);
    assert r - 0 == r;
    RowAtIsSaid(batches, inserts, path, columns, types, r / 100, r % 100);
  }

  lemma RowsAreSaid(rows: seq<ImportSql.Row>, path: seq<string>, columns: seq<string>, types: seq<SqlType>)
    ensures forall r | 0 <= r < |rows| :: SaysRowAt(MeantInserts(Batches(rows, 0), path, columns, types), r, rows[r], types)
  {
    var batches := Batches(rows, 0);
    var inserts := MeantInserts(batches, path, columns, types);
    forall r | 0 <= r < |rows| ensures SaysRowAt(inserts, r, rows[r], types) {
      FileRowIsSaid(rows, r, batches, inserts, path, columns, types);
    }
  }

  lemma RowAtIsSaid(batches: seq<seq<ImportSql.Row>>, inserts: seq<Said>, path: seq<string>, columns: seq<string>, types: seq<SqlType>,
                    b: nat, k: nat)
    requires inserts == MeantInserts(batches, path, columns, types) && b < |batches| && k < |batches[b]|
    ensures inserts[b].Insert? && k < |inserts[b].rows| && SaysRow(inserts[b].rows[k], batches[b][k], types)
  {
    InsertAt(batches, path, columns, types, b);
    RowIsSaid(batches[b], types, k);
  }

  lemma InsertsAreFull(rows: seq<ImportSql.Row>, path: seq<string>, columns: seq<string>, types: seq<SqlType>)
    ensures
      var inserts := MeantInserts(Batches(rows, 0), path, columns, types);
      && |inserts| == (|rows| + 99) / 100
      && forall b | 0 <= b < |inserts| ::
           inserts[b] == Insert(path, columns, inserts[b].rows) && |inserts[b].rows| == RowsIn(|rows|, b)
  {
    BatchesPartition(rows, 0);
    forall b | 0 <= b < |Batches(rows, 0)| ensures |Batches(rows, 0)[b]| == RowsIn(|rows|, b) {
      BatchSize(rows, 0, b);
    }
  }

  lemma MeantSays(data: Csv.ParsedData, target: Target, mapping: map<string, string>)
    returns (creates: seq<Said>, inserts: seq<Said>)
    ensures creates + inserts == Meant(data, target, mapping)
    ensures |creates| == (if target.New? then 1 else 0) && forall s <- creates :: SaysCreate(s, data, target, mapping)
    ensures |inserts| == (|data.rows| + 99) / 100
    ensures forall b | 0 <= b < |inserts| ::
              SaysInsert(inserts[b], data, target, mapping) && |inserts[b].rows| == RowsIn(|data.rows|, b)
    ensures forall r | 0 <= r < |data.rows| :: SaysRowAt(inserts, r, data.rows[r], ColumnTypes(data.headers, data.rows))
  {
    var path, columns, types := MeantPath(target), MappedHeaders(data.headers, mapping), ColumnTypes(data.headers, data.rows);
    creates := if target.New? then [Create(path, Defs(columns, types))] else [];
    inserts := MeantInserts(Batches(data.rows, 0), path, columns, types);
    if target.New? {
      MeantCreate(data, target, mapping);
    }
    InsertsAreFull(data.rows, path, columns, types);
    RowsAreSaid(data.rows, path, columns, types);
    InsertIsSaid(path, columns, data, target, mapping);
  }

  lemma InsertIsSaid(path: seq<string>, columns: seq<string>, data: Csv.ParsedData, target: Target, mapping: map<string, string>)
    requires path == MeantPath(target) && columns == MappedHeaders(data.headers, mapping)
    ensures forall rows: seq<seq<Token>> :: SaysInsert(Insert(path, columns, rows), data, target, mapping)
  {
    MeantAddress(target);
  }

  /**
   The script read back, in terms of the file: a CREATE of the chosen names and the types of the
   sample for a new table, then one INSERT for each hundred rows, in which every row of the file
   stands once, in order, and every cell is said by its token.
   */
  lemma ScriptHoldsTheFile(data: Csv.ParsedData, target: Target, mapping: map<string, string>, dialect: Option<Dialect>,
                           caps: Option<Capabilities>, lex: Lexicon)
    returns (creates: seq<Said>, inserts: seq<Said>)
    requires Fits(lex, TargetCaps(target, caps)) && (target.New? || data.rows != [])
    requires NamesSpelled(MeantPath(target), TargetCaps(target, caps), MappedHeaders(data.headers, mapping), lex)
    ensures ReadScript(Join(Statements(data, target, mapping, dialect, caps), "\n\n"), lex, EscapeOf(dialect))
         == Some(creates + inserts)
    ensures |creates| == (if target.New? then 1 else 0) && forall s <- creates :: SaysCreate(s, data, target, mapping)
    ensures |inserts| == (|data.rows| + 99) / 100
    ensures forall b | 0 <= b < |inserts| ::
              SaysInsert(inserts[b], data, target, mapping) && |inserts[b].rows| == RowsIn(|data.rows|, b)
    ensures forall r | 0 <= r < |data.rows| :: SaysRowAt(inserts, r, data.rows[r], ColumnTypes(data.headers, data.rows))
  {
    ScriptReadsBackIff(data, target, mapping, dialect, caps, lex);
    creates, inserts := MeantSays(data, target, mapping);
  }
}
