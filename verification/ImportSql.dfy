/** The statements an import is turned into (`generateImportSQL`), and how they read back. */
module ImportSql {
  import opened Options
  import opened Sequences
  import opened Strings
  import opened SqlText
  import opened Csv
  import opened ObjectPath

  datatype SqlType = TEXT | INTEGER | NUMERIC | BOOLEAN

  // ---------------------------------------------------------------------------
  // The shapes a value must have to be written unquoted

  predicate IsDigits(s: string) { s != "" && forall c <- s :: IsDigit(c) }

  function DropMinus(s: string): string {
    if s != "" && s[0] == '-' then s[1..] else s
  }

  /** `/^-?\d+$/` */
  predicate IsInteger(s: string) { IsDigits(DropMinus(s)) }

  /** `/^-?\d+(\.\d+)?$/` */
  predicate IsNumeric(s: string) {
    var t := DropMinus(s);
    var k := RunLength(t, IsDigit);
    k > 0 && (k == |t| || (t[k] == '.' && IsDigits(t[k + 1..])))
  }

  /** `/^(true|false|0|1)$/i` */
  predicate IsBoolean(s: string) {
    Lower(s) == "true" || Lower(s) == "false" || s == "0" || s == "1"
  }

  /** A cell past the end of its row is undefined: not empty, and of no shape. */
  predicate All(values: seq<Option<string>>, shape: string -> bool) {
    forall v <- values :: v != Some("") ==> v.Some? && shape(v.value)
  }

  function InferSqlType(values: seq<Option<string>>): SqlType {
    if forall v <- values :: v == Some("") then TEXT
    else if All(values, IsInteger) then INTEGER
    else if All(values, IsNumeric) then NUMERIC
    else if All(values, IsBoolean) then BOOLEAN
    else TEXT
  }

  type Row = seq<string>

  const SAMPLE := 100
  const BATCH := 100

  function Min(a: nat, b: nat): nat { if a < b then a else b }

  function ColumnSample(rows: seq<Row>, idx: nat): seq<Option<string>> {
    seq(Min(SAMPLE, |rows|), i requires 0 <= i < Min(SAMPLE, |rows|) =>
      if idx < |rows[i]| then Some(rows[i][idx]) else None)
  }

  function ColumnTypes(headers: seq<string>, rows: seq<Row>): seq<SqlType> {
    seq(|headers|, idx requires 0 <= idx < |headers| => InferSqlType(ColumnSample(rows, idx)))
  }

  /** A cell past the headers has no type. */
  function TypeAt(types: seq<SqlType>, idx: nat): SqlType {
    if idx < |types| then types[idx] else TEXT
  }

  // ---------------------------------------------------------------------------
  // The emitter

  predicate IsNullCell(value: string) { value == "" || value == "NULL" || value == "null" }

  function EmitCell(value: string, sqlType: SqlType, escape: LiteralEscape): string {
    if IsNullCell(value) then "NULL"
    else if sqlType == BOOLEAN && IsBoolean(value) then
      if Lower(value) == "true" || value == "1" then "TRUE" else "FALSE"
    else if sqlType == INTEGER && IsInteger(value) then value
    else if sqlType == NUMERIC && IsNumeric(value) then value
    else QuoteAs(value, escape)
  }

  /** The cells of a row from column `idx` on, separated and closed. */
  function CellsText(cells: Row, idx: nat, types: seq<SqlType>, escape: LiteralEscape): string {
    if cells == [] then ")"
    else
      EmitCell(cells[0], TypeAt(types, idx), escape)
        + (if |cells| == 1 then ")" else ", " + CellsText(cells[1..], idx + 1, types, escape))
  }

  function RowText(row: Row, types: seq<SqlType>, escape: LiteralEscape): string {
    "  (" + CellsText(row, 0, types, escape)
  }

  function RowsText(batch: seq<Row>, types: seq<SqlType>, escape: LiteralEscape): string {
    if batch == [] then ""
    else if |batch| == 1 then RowText(batch[0], types, escape)
    else RowText(batch[0], types, escape) + (",\n" + RowsText(batch[1..], types, escape))
  }

  /** An existing object is addressed by its path; a new table is a name as it was typed. */
  datatype Target = Existing(path: seq<string>) | New(name: string)

  function TargetIdentifier(target: Target, caps: Option<Capabilities>): string {
    match target
    case New(name) => if name != "" then name else "imported_data"
    case Existing(path) => PathText(path, caps)
  }

  function MappedHeader(h: string, mapping: map<string, string>): string {
    if h in mapping && mapping[h] != "" then mapping[h] else h
  }

  function MappedHeaders(headers: seq<string>, mapping: map<string, string>): seq<string> {
    seq(|headers|, i requires 0 <= i < |headers| => MappedHeader(headers[i], mapping))
  }

  function TypeName(t: SqlType): string {
    match t
    case TEXT => "TEXT"
    case INTEGER => "INTEGER"
    case NUMERIC => "NUMERIC"
    case BOOLEAN => "BOOLEAN"
  }

  function CreateText(table: string, columns: seq<string>, types: seq<SqlType>): string
    requires |columns| == |types|
  {
    var colDefs := seq(|columns|, i requires 0 <= i < |columns| => "  " + columns[i] + " " + TypeName(types[i]));
    "CREATE TABLE " + table + " (\n" + Join(colDefs, ",\n") + "\n);"
  }

  function InsertText(table: string, columns: seq<string>, batch: seq<Row>, types: seq<SqlType>,
                      escape: LiteralEscape): string
  {
    "INSERT INTO " + table + " (" + Join(columns, ", ") + ")\nVALUES\n" + (RowsText(batch, types, escape) + ";")
  }

  /** `slice(i, i + 100)`, then from `i + 100` on. */
  function Batches(rows: seq<Row>, i: nat): seq<seq<Row>>
    decreases |rows| - i
  {
    if i >= |rows| then [] else [rows[i..Min(i + BATCH, |rows|)]] + Batches(rows, i + BATCH)
  }

  function Inserts(batches: seq<seq<Row>>, table: string, columns: seq<string>, types: seq<SqlType>,
                   escape: LiteralEscape): seq<string>
  {
    seq(|batches|, i requires 0 <= i < |batches| => InsertText(table, columns, batches[i], types, escape))
  }

  function Statements(data: ParsedData, target: Target, mapping: map<string, string>, dialect: Option<Dialect>,
                      caps: Option<Capabilities>): seq<string>
  {
    var table, types := TargetIdentifier(target, caps), ColumnTypes(data.headers, data.rows);
    var columns := MappedHeaders(data.headers, mapping);
    (if target.New? then [CreateText(table, columns, types)] else [])
      + Inserts(Batches(data.rows, 0), table, columns, types, EscapeOf(dialect))
  }

  /** `generateImportSQL` */
  method GenerateImportSql(parsedData: Option<ParsedData>, target: Option<Target>, mapping: map<string, string>,
                           dialect: Option<Dialect>, caps: Option<Capabilities>)
    returns (sql: string)
    ensures sql == if parsedData.None? || target.None? then ""
                   else Join(Statements(parsedData.value, target.value, mapping, dialect, caps), "\n\n")
  {
    if parsedData.None? { return ""; }
    if target.None? { return ""; }
    var data, table := parsedData.value, TargetIdentifier(target.value, caps);
    var types := ColumnTypes(data.headers, data.rows);
    var columns, escape := MappedHeaders(data.headers, mapping), EscapeOf(dialect);
    var statements: seq<string> := [];
    if target.value.New? {
      statements := statements + [CreateText(table, columns, types)];
    }
    var inserts := EmitInserts(data.rows, table, columns, types, escape);
    sql := Join(statements + inserts, "\n\n");
  }

  method EmitInserts(rows: seq<Row>, table: string, columns: seq<string>, types: seq<SqlType>, escape: LiteralEscape)
    returns (statements: seq<string>)
    ensures statements == Inserts(Batches(rows, 0), table, columns, types, escape)
  {
    statements := [];
    var i := 0;
    ghost var all := Inserts(Batches(rows, 0), table, columns, types, escape);
    while i < |rows|
      invariant 0 <= i
      invariant statements + Inserts(Batches(rows, i), table, columns, types, escape) == all
    {
      var batch := rows[i..Min(i + BATCH, |rows|)];
      InsertsCons(batch, Batches(rows, i + BATCH), table, columns, types, escape);
      Assoc(statements, [InsertText(table, columns, batch, types, escape)],
            Inserts(Batches(rows, i + BATCH), table, columns, types, escape));
      statements := statements + [InsertText(table, columns, batch, types, escape)];
      i := i + BATCH;
    }
  }

  lemma InsertsCons(batch: seq<Row>, rest: seq<seq<Row>>, table: string, columns: seq<string>, types: seq<SqlType>,
                    escape: LiteralEscape)
    ensures Inserts([batch] + rest, table, columns, types, escape)
         == [InsertText(table, columns, batch, types, escape)] + Inserts(rest, table, columns, types, escape)
  {
  }

  // ---------------------------------------------------------------------------
  // Batches

  function Flatten(batches: seq<seq<Row>>): seq<Row> {
    if batches == [] then [] else batches[0] + Flatten(batches[1..])
  }

  /** Every batch is full but the last, none is empty, and together they are all rows in order. */
  lemma {:induction false} BatchesPartition(rows: seq<Row>, i: nat)
    requires i <= |rows|
    ensures Flatten(Batches(rows, i)) == rows[i..]
    ensures |Batches(rows, i)| == (|rows| - i + 99) / 100
    ensures forall k | 0 <= k < |Batches(rows, i)| :: 0 < |Batches(rows, i)[k]| <= 100
    ensures forall k | 0 <= k < |Batches(rows, i)| - 1 :: |Batches(rows, i)[k]| == 100
    decreases |rows| - i
  {
    if i < |rows| {
      var j := Min(i + BATCH, |rows|);
      assert Batches(rows, i + BATCH) == Batches(rows, j);
      BatchesPartition(rows, j);
      assert rows[i..] == rows[i..j] + rows[j..];
      assert Batches(rows, i)[1..] == Batches(rows, j);
    }
  }

  // ---------------------------------------------------------------------------
  // How an engine reads a VALUES list

  datatype Token = NullToken | BoolToken(truth: bool) | NumberToken(text: string) | TextToken(value: string)

  predicate IsWordChar(c: char) { IsDigit(c) || 'A' <= c <= 'Z' || c == '-' || c == '.' }

  function ReadWord(word: string): Option<Token> {
    if word == "NULL" then Some(NullToken)
    else if word == "TRUE" then Some(BoolToken(true))
    else if word == "FALSE" then Some(BoolToken(false))
    else if IsNumeric(word) then Some(NumberToken(word))
    else None
  }

  function ReadToken(text: string, escape: LiteralEscape): (r: Option<(Token, string)>)
    ensures r.Some? ==> |r.value.1| < |text|
  {
    if text != "" && text[0] == '\'' then
      match ReadBody(text[1..], escape)
      case None => None
      case Some((value, rest)) => Some((TextToken(value), rest))
    else
      var k := RunLength(text, IsWordChar);
      if k == 0 then None
      else match ReadWord(text[..k])
        case None => None
        case Some(token) => Some((token, text[k..]))
  }

  /** Tokens separated by `, ` up to the closing parenthesis. */
  function ReadCells(text: string, escape: LiteralEscape): (r: Option<(seq<Token>, string)>)
    ensures r.Some? ==> |r.value.1| < |text|
    decreases |text|
  {
    if Starts(text, ")") then Some(([], text[1..]))
    else
      match ReadToken(text, escape)
      case None => None
      case Some((token, rest)) =>
        if Starts(rest, ")") then Some(([token], rest[1..]))
        else
          match Strip(rest, ", ")
          case None => None
          case Some(more) =>
            match ReadCells(more, escape)
            case None => None
            case Some((tokens, rest')) => Some(([token] + tokens, rest'))
  }

  /** Rows separated by `,` and a line feed. */
  function ReadRows(text: string, escape: LiteralEscape): (r: Option<(seq<seq<Token>>, string)>)
    ensures r.Some? ==> |r.value.1| < |text|
    decreases |text|
  {
    match Strip(text, "  (")
    case None => None
    case Some(cells) =>
      match ReadCells(cells, escape)
      case None => None
      case Some((row, rest)) =>
        match Strip(rest, ",\n")
        case None => Some(([row], rest))
        case Some(more) =>
          match ReadRows(more, escape)
          case None => None
          case Some((rows, rest')) => Some(([row] + rows, rest'))
  }

  // ---------------------------------------------------------------------------
  // What the tokens say

  /** The token a cell becomes. */
  function TokenOf(value: string, sqlType: SqlType): Token {
    if IsNullCell(value) then NullToken
    else if sqlType == BOOLEAN && IsBoolean(value) then BoolToken(Lower(value) == "true" || value == "1")
    else if (sqlType == INTEGER && IsInteger(value)) || (sqlType == NUMERIC && IsNumeric(value)) then NumberToken(value)
    else TextToken(value)
  }

  function TokensOf(cells: Row, idx: nat, types: seq<SqlType>): seq<Token> {
    seq(|cells|, k requires 0 <= k < |cells| => TokenOf(cells[k], TypeAt(types, idx + k)))
  }

  function RowTokens(batch: seq<Row>, types: seq<SqlType>): seq<seq<Token>> {
    seq(|batch|, i requires 0 <= i < |batch| => TokensOf(batch[i], 0, types))
  }

  // ---------------------------------------------------------------------------
  // Reading back

  /** What follows a cell: a separator or the end of its row. */
  predicate EndsCell(rest: string) { rest != "" && (rest[0] == ',' || rest[0] == ')') }

  lemma WordReadsBack(word: string, rest: string, escape: LiteralEscape, token: Token)
    requires word != "" && (forall c <- word :: IsWordChar(c)) && EndsCell(rest)
    requires ReadWord(word) == Some(token)
    ensures ReadToken(word + rest, escape) == Some((token, rest))
  {
    var text := word + rest;
    RunLengthOf(word, rest, IsWordChar);
    assert text[0] == word[0] && IsWordChar(word[0]);
    assert text[..|word|] == word && text[|word|..] == rest;
  }

  lemma NumericIsWord(s: string)
    requires IsNumeric(s)
    ensures s != "" && forall c <- s :: IsWordChar(c)
    ensures ReadWord(s) == Some(NumberToken(s))
  {
    var t := DropMinus(s);
    var k := RunLength(t, IsDigit);
    assert t == t[..k] + t[k..];
    assert forall c <- t[..k] :: IsDigit(c);
    assert k < |t| ==> t[k..] == [t[k]] + t[k + 1..];
    assert s == t || s == "-" + t;
    assert IsDigit(t[0]);
    assert s[0] == '-' || IsDigit(s[0]);
  }

  lemma IntegerIsNumeric(s: string)
    requires IsInteger(s)
    ensures IsNumeric(s)
  {
    var t := DropMinus(s);
    RunLengthOf(t, "", IsDigit);
    assert t + "" == t;
  }

  lemma CellReadsBack(value: string, sqlType: SqlType, escape: LiteralEscape, rest: string)
    requires EndsCell(rest)
    ensures ReadToken(EmitCell(value, sqlType, escape) + rest, escape) == Some((TokenOf(value, sqlType), rest))
  {
    match TokenOf(value, sqlType)
    case NullToken => WordReadsBack("NULL", rest, escape, NullToken);
    case BoolToken(b) =>
      if b { WordReadsBack("TRUE", rest, escape, BoolToken(true)); }
      else { WordReadsBack("FALSE", rest, escape, BoolToken(false)); }
    case NumberToken(_) =>
      if sqlType == INTEGER { IntegerIsNumeric(value); }
      NumericIsWord(value);
      WordReadsBack(value, rest, escape, NumberToken(value));
    case TextToken(_) =>
      QuoteReadsBack(value, escape, rest);
  }

  lemma EmittedCellOpens(value: string, sqlType: SqlType, escape: LiteralEscape, rest: string)
    ensures !Starts(EmitCell(value, sqlType, escape) + rest, ")")
  {
    var text := EmitCell(value, sqlType, escape);
    if TokenOf(value, sqlType).NumberToken? {
      if sqlType == INTEGER { IntegerIsNumeric(value); }
      NumericIsWord(value);
    }
    assert text != "" && text[0] != ')';
    StripOther(text + rest, ")", 0);
  }

  lemma LastCellReadsBack(value: string, sqlType: SqlType, escape: LiteralEscape, rest: string)
    ensures ReadCells(EmitCell(value, sqlType, escape) + (")" + rest), escape)
         == Some(([TokenOf(value, sqlType)], rest))
  {
    EmittedCellOpens(value, sqlType, escape, ")" + rest);
    CellReadsBack(value, sqlType, escape, ")" + rest);
    StripPrefix(")", rest);
  }

  lemma NextCellReadsBack(value: string, sqlType: SqlType, escape: LiteralEscape, more: string,
                          tokens: seq<Token>, rest: string)
    requires ReadCells(more, escape) == Some((tokens, rest))
    ensures ReadCells(EmitCell(value, sqlType, escape) + (", " + more), escape)
         == Some(([TokenOf(value, sqlType)] + tokens, rest))
  {
    EmittedCellOpens(value, sqlType, escape, ", " + more);
    CellReadsBack(value, sqlType, escape, ", " + more);
    StripOther(", " + more, ")", 0);
    StripPrefix(", ", more);
  }

  lemma TokensOfCons(cells: Row, idx: nat, types: seq<SqlType>)
    requires cells != []
    ensures TokensOf(cells, idx, types)
         == [TokenOf(cells[0], TypeAt(types, idx))] + TokensOf(cells[1..], idx + 1, types)
    ensures |cells| == 1 ==> TokensOf(cells, idx, types) == [TokenOf(cells[0], TypeAt(types, idx))]
  {
  }

  lemma {:induction false} CellsReadBack(cells: Row, idx: nat, types: seq<SqlType>, escape: LiteralEscape, rest: string)
    ensures ReadCells(CellsText(cells, idx, types, escape) + rest, escape) == Some((TokensOf(cells, idx, types), rest))
  {
    if cells == [] {
      StripPrefix(")", rest);
      assert TokensOf(cells, idx, types) == [];
    } else {
      var sqlType := TypeAt(types, idx);
      var first := EmitCell(cells[0], sqlType, escape);
      TokensOfCons(cells, idx, types);
      if |cells| == 1 {
        LastCellReadsBack(cells[0], sqlType, escape, rest);
        Regroup(first, ")", "", rest);
        assert CellsText(cells, idx, types, escape) == first + ")";
      } else {
        var more := CellsText(cells[1..], idx + 1, types, escape);
        CellsReadBack(cells[1..], idx + 1, types, escape, rest);
        NextCellReadsBack(cells[0], sqlType, escape, more + rest, TokensOf(cells[1..], idx + 1, types), rest);
        Regroup(first, ", ", more, rest);
        assert CellsText(cells, idx, types, escape) == first + (", " + more);
      }
    }
  }

  lemma LastRowReadsBack(row: Row, types: seq<SqlType>, escape: LiteralEscape, rest: string)
    requires Strip(rest, ",\n") == None
    ensures ReadRows(RowText(row, types, escape) + rest, escape) == Some(([TokensOf(row, 0, types)], rest))
  {
    var cells := CellsText(row, 0, types, escape) + rest;
    CellsReadBack(row, 0, types, escape, rest);
    StripPrefix("  (", cells);
    assert RowText(row, types, escape) + rest == "  (" + cells;
  }

  lemma NextRowReadsBack(row: Row, types: seq<SqlType>, escape: LiteralEscape, more: string,
                         rows: seq<seq<Token>>, rest: string)
    requires ReadRows(more, escape) == Some((rows, rest))
    ensures ReadRows(RowText(row, types, escape) + (",\n" + more), escape)
         == Some(([TokensOf(row, 0, types)] + rows, rest))
  {
    var cells := CellsText(row, 0, types, escape) + (",\n" + more);
    CellsReadBack(row, 0, types, escape, ",\n" + more);
    StripPrefix("  (", cells);
    StripPrefix(",\n", more);
    assert RowText(row, types, escape) + (",\n" + more) == "  (" + cells;
  }

  lemma RowTokensCons(batch: seq<Row>, types: seq<SqlType>)
    requires batch != []
    ensures RowTokens(batch, types) == [TokensOf(batch[0], 0, types)] + RowTokens(batch[1..], types)
  {
  }

  lemma {:induction false} RowsReadBack(batch: seq<Row>, types: seq<SqlType>, escape: LiteralEscape, rest: string)
    requires batch != [] && Strip(rest, ",\n") == None
    ensures ReadRows(RowsText(batch, types, escape) + rest, escape) == Some((RowTokens(batch, types), rest))
  {
    RowTokensCons(batch, types);
    if |batch| == 1 {
      LastRowReadsBack(batch[0], types, escape, rest);
      assert RowTokens(batch, types) == [TokensOf(batch[0], 0, types)];
    } else {
      var first, more := RowText(batch[0], types, escape), RowsText(batch[1..], types, escape);
      RowsReadBack(batch[1..], types, escape, rest);
      NextRowReadsBack(batch[0], types, escape, more + rest, RowTokens(batch[1..], types), rest);
      assert RowsText(batch, types, escape) == first + (",\n" + more);
      Regroup(first, ",\n", more, rest);
    }
  }

  // ---------------------------------------------------------------------------
  // The shapes by their characters

  /** Where the digits begin. */
  function SignLength(s: string): nat { if s != "" && s[0] == '-' then 1 else 0 }

  /** An optional minus and at least one digit. */
  predicate LooksInteger(s: string) {
    |s| > SignLength(s) && forall k | SignLength(s) <= k < |s| :: '0' <= s[k] <= '9'
  }

  /** That, or a dot with digits on both its sides. */
  predicate LooksNumeric(s: string) {
    LooksInteger(s) || exists dot | SignLength(s) < dot < |s| - 1 :: DotAt(s, dot)
  }

  predicate DotAt(s: string, dot: nat) {
    dot < |s| && s[dot] == '.' && forall k | SignLength(s) <= k < |s| && k != dot :: '0' <= s[k] <= '9'
  }

  predicate LooksTrue(s: string) { SameWord(s, "true") || s == "1" }
  predicate LooksFalse(s: string) { SameWord(s, "false") || s == "0" }
  predicate LooksBoolean(s: string) { LooksTrue(s) || LooksFalse(s) }

  /** A text without its sign, position by position. */
  lemma Unsigned(s: string)
    ensures |DropMinus(s)| == |s| - SignLength(s)
    ensures forall k | 0 <= k < |DropMinus(s)| :: DropMinus(s)[k] == s[k + SignLength(s)]
    ensures forall k | SignLength(s) <= k < |s| :: s[k] == DropMinus(s)[k - SignLength(s)]
  {
  }

  lemma DigitsIff(s: string)
    ensures IsDigits(s) <==> s != "" && forall k | 0 <= k < |s| :: '0' <= s[k] <= '9'
  {
    assert forall k | 0 <= k < |s| :: s[k] in s;
  }

  lemma IntegerIff(s: string)
    ensures IsInteger(s) <==> LooksInteger(s)
  {
    Unsigned(s);
    DigitsIff(DropMinus(s));
  }

  /** A text of digits with one dot between two of them. */
  predicate DottedAt(t: string, dot: nat) {
    0 < dot < |t| - 1 && t[dot] == '.' && forall k | 0 <= k < |t| && k != dot :: '0' <= t[k] <= '9'
  }

  lemma DottedIff(t: string)
    ensures
      var k := RunLength(t, IsDigit);
      (0 < k < |t| && t[k] == '.' && IsDigits(t[k + 1..])) <==> exists dot: nat :: DottedAt(t, dot)
  {
    var k := RunLength(t, IsDigit);
    if 0 < k < |t| && t[k] == '.' && IsDigits(t[k + 1..]) {
      DigitsIff(t[k + 1..]);
      assert forall i | k < i < |t| :: t[i] == t[k + 1..][i - k - 1];
      assert DottedAt(t, k);
    }
    if dot: nat :| DottedAt(t, dot) {
      assert k == dot;
      DigitsIff(t[k + 1..]);
    }
  }

  lemma UnsignedDot(s: string, dot: nat)
    requires SignLength(s) <= dot
    ensures (SignLength(s) < dot < |s| - 1 && DotAt(s, dot)) <==> DottedAt(DropMinus(s), dot - SignLength(s))
  {
    Unsigned(s);
  }

  lemma NumericIff(s: string)
    ensures IsNumeric(s) <==> LooksNumeric(s)
  {
    var t, n := DropMinus(s), SignLength(s);
    DottedIff(t);
    AllDigitsIff(t);
    IntegerIff(s);
    if dot: nat :| DottedAt(t, dot) {
      UnsignedDot(s, dot + n);
    } else if dot: nat :| n < dot < |s| - 1 && DotAt(s, dot) {
      UnsignedDot(s, dot);
      assert false;
    }
  }

  lemma AllDigitsIff(t: string)
    ensures IsDigits(t) <==> 0 < RunLength(t, IsDigit) == |t|
  {
    if IsDigits(t) {
      RunLengthOf(t, "", IsDigit);
      assert t + "" == t;
    }
  }

  lemma BooleanIff(s: string)
    ensures IsBoolean(s) <==> LooksBoolean(s)
    ensures (Lower(s) == "true" || s == "1") <==> LooksTrue(s)
    ensures (Lower(s) == "false" || s == "0") <==> LooksFalse(s)
    ensures !(LooksTrue(s) && LooksFalse(s))
  {
    LowerIff(s, "true");
    LowerIff(s, "false");
    assert Lower("true") == "true" && Lower("false") == "false";
  }

  /** A cell of its column's type is written without quotes. */
  predicate FitsType(cell: string, sqlType: SqlType) {
    match sqlType
    case TEXT => false
    case INTEGER => LooksInteger(cell)
    case NUMERIC => LooksNumeric(cell)
    case BOOLEAN => LooksBoolean(cell)
  }

  /** What a token read at a cell's place says: exactly one token says a given cell. */
  predicate Says(token: Token, cell: string, sqlType: SqlType) {
    var isNull := cell == "" || cell == "NULL" || cell == "null";
    match token
    case NullToken => isNull
    case TextToken(value) => value == cell && !isNull && !FitsType(cell, sqlType)
    case NumberToken(text) => text == cell && !isNull && sqlType != BOOLEAN && FitsType(cell, sqlType)
    case BoolToken(truth) => !isNull && sqlType == BOOLEAN && if truth then LooksTrue(cell) else LooksFalse(cell)
  }

  lemma OneTokenSays(a: Token, b: Token, cell: string, sqlType: SqlType)
    requires Says(a, cell, sqlType) && Says(b, cell, sqlType)
    ensures a == b
  {
    BooleanIff(cell);
  }

  /**
   Whatever the cells hold, an engine of the dialect reads a batch's VALUES list as exactly one
   token per cell, in order, and stops at the semicolon the statement ends in: no cell is read
   as statement text. Each token says its own cell.
   */
  lemma ValuesReadBack(batch: seq<Row>, types: seq<SqlType>, escape: LiteralEscape, rest: string)
    returns (rows: seq<seq<Token>>)
    requires batch != []
    ensures ReadRows(RowsText(batch, types, escape) + (";" + rest), escape) == Some((rows, ";" + rest))
    ensures |rows| == |batch| && forall i | 0 <= i < |rows| ::
              && |rows[i]| == |batch[i]|
              && forall k | 0 <= k < |rows[i]| :: Says(rows[i][k], batch[i][k], TypeAt(types, k))
  {
    StripOther(";" + rest, ",\n", 0);
    RowsReadBack(batch, types, escape, ";" + rest);
    rows := RowTokens(batch, types);
    forall i, k | 0 <= i < |rows| && 0 <= k < |rows[i]|
      ensures Says(rows[i][k], batch[i][k], TypeAt(types, k))
    {
      TokenSays(batch[i][k], TypeAt(types, k));
    }
  }

  lemma TokenSays(cell: string, sqlType: SqlType)
    ensures Says(TokenOf(cell, sqlType), cell, sqlType)
  {
    IntegerIff(cell);
    NumericIff(cell);
    BooleanIff(cell);
  }

  // ---------------------------------------------------------------------------
  // Inference

  /** Row `i` is in the sample and its cell is not empty; a cell past the end of its row is undefined, not empty. */
  predicate Sampled(rows: seq<Row>, idx: nat, i: nat) {
    i < 100 && i < |rows| && (idx < |rows[i]| ==> rows[i][idx] != "")
  }

  ghost predicate AllSampled(rows: seq<Row>, idx: nat, shape: string -> bool) {
    forall i: nat | Sampled(rows, idx, i) :: idx < |rows[i]| && shape(rows[i][idx])
  }

  lemma AllIffSampled(rows: seq<Row>, idx: nat, shape: string -> bool, looks: string -> bool)
    requires forall s :: shape(s) <==> looks(s)
    ensures All(ColumnSample(rows, idx), shape) <==> AllSampled(rows, idx, looks)
  {
    var sample := ColumnSample(rows, idx);
    assert forall i | 0 <= i < |sample| :: sample[i] in sample;
    assert forall i: nat | Sampled(rows, idx, i) :: sample[i] != Some("");
    if AllSampled(rows, idx, looks) {
      forall v | v in sample && v != Some("") ensures v.Some? && shape(v.value) {
        var i :| 0 <= i < |sample| && sample[i] == v;
        assert Sampled(rows, idx, i);
      }
    }
  }

  lemma NoneSampledIff(rows: seq<Row>, idx: nat)
    ensures (forall v <- ColumnSample(rows, idx) :: v == Some("")) <==> forall i: nat :: !Sampled(rows, idx, i)
  {
    var sample := ColumnSample(rows, idx);
    assert forall i | 0 <= i < |sample| :: sample[i] in sample;
    if forall i: nat :: !Sampled(rows, idx, i) {
      forall v | v in sample ensures v == Some("") {
        var i :| 0 <= i < |sample| && sample[i] == v;
        assert !Sampled(rows, idx, i);
      }
    } else {
      var i: nat :| Sampled(rows, idx, i);
      assert sample[i] != Some("");
    }
  }

  /**
   The type of a column is decided by the cells of the first hundred rows that are not empty: INTEGER
   if there are any and all are a minus or none and digits, else NUMERIC if all are that with a
   fraction or none, else BOOLEAN if all are true, false, 0 or 1 in any case, else TEXT. A cell that
   says NULL is not empty here.
   */
  lemma ColumnTypeIff(headers: seq<string>, rows: seq<Row>, idx: nat)
    requires idx < |headers|
    ensures
      var t, some := ColumnTypes(headers, rows)[idx], exists i: nat :: Sampled(rows, idx, i);
      var integers, numbers := AllSampled(rows, idx, LooksInteger), AllSampled(rows, idx, LooksNumeric);
      var booleans := AllSampled(rows, idx, LooksBoolean);
      && |ColumnTypes(headers, rows)| == |headers|
      && (t == INTEGER <==> some && integers)
      && (t == NUMERIC <==> some && !integers && numbers)
      && (t == BOOLEAN <==> some && !integers && !numbers && booleans)
      && (t == TEXT <==> !some || (!integers && !numbers && !booleans))
  {
    NoneSampledIff(rows, idx);
    ShapesLook();
    AllIffSampled(rows, idx, IsInteger, LooksInteger);
    AllIffSampled(rows, idx, IsNumeric, LooksNumeric);
    AllIffSampled(rows, idx, IsBoolean, LooksBoolean);
  }

  lemma ShapesLook()
    ensures forall s :: IsInteger(s) <==> LooksInteger(s)
    ensures forall s :: IsNumeric(s) <==> LooksNumeric(s)
    ensures forall s :: IsBoolean(s) <==> LooksBoolean(s)
  {
    forall s ensures IsInteger(s) <==> LooksInteger(s) { IntegerIff(s); }
    forall s ensures IsNumeric(s) <==> LooksNumeric(s) { NumericIff(s); }
    forall s ensures IsBoolean(s) <==> LooksBoolean(s) { BooleanIff(s); }
  }

  /** In the sample no cell of a typed column is quoted. */
  lemma SampledCellsFit(headers: seq<string>, rows: seq<Row>, i: nat, idx: nat)
    requires i < 100 && i < |rows| && idx < |headers| && idx < |rows[i]|
    ensures
      var sqlType := ColumnTypes(headers, rows)[idx];
      sqlType != TEXT ==> rows[i][idx] == "" || FitsType(rows[i][idx], sqlType)
  {
    ColumnTypeIff(headers, rows, idx);
    assert rows[i][idx] != "" ==> Sampled(rows, idx, i);
  }
}
