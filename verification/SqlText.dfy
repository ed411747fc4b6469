/** How SQL text is written for a dialect (`src/lib/sql`), and how that dialect reads it back. */
module SqlText {
  import opened Options
  import opened Sequences
  import opened Strings

  datatype Dialect =
    | Postgres | Sqlite | Libsql | Duckdb | Virtual | Oracle | Mssql | Druid | Elasticsearch | Trino
    | Athena | Cassandra | Mongodb | Redis | Libredb | Mysql | Clickhouse | Opensearch | Couchbase

  /** How the escapes inside a single-quoted literal are spelled. */
  datatype LiteralEscape = Standard | DoubleAndBackslash | Backslash

  function EscapeOf(dialect: Option<Dialect>): LiteralEscape {
    match dialect
    case Some(Mysql) => DoubleAndBackslash
    case Some(Clickhouse) => DoubleAndBackslash
    case Some(Opensearch) => DoubleAndBackslash
    case Some(Couchbase) => Backslash
    case _ => Standard
  }

  // ---------------------------------------------------------------------------
  // String literals

  function QuoteLiteral(value: string, dialect: Option<Dialect>): string {
    QuoteAs(value, EscapeOf(dialect))
  }

  function QuoteAs(value: string, escape: LiteralEscape): string {
    if escape == Standard then "'" + ReplaceAll(value, '\'', "''") + "'"
    else
      var escaped := ReplaceAll(value, '\\', "\\\\");
      if escape == Backslash then "'" + ReplaceAll(escaped, '\'', "\\'") + "'"
      else "'" + ReplaceAll(escaped, '\'', "''") + "'"
  }

  /** One character of a literal's body. */
  function EscapeChar(c: char, escape: LiteralEscape): string {
    if c == '\'' then (if escape == Backslash then "\\'" else "''")
    else if c == '\\' && escape != Standard then "\\\\"
    else [c]
  }

  function Escaped(value: string, escape: LiteralEscape): string {
    if value == "" then "" else EscapeChar(value[0], escape) + Escaped(value[1..], escape)
  }

  /**
   How an engine of this escape reads on from inside a literal: the value up to the closing
   quote, and what follows it. An escape no quoting here emits is refused.
   */
  function ReadBody(text: string, escape: LiteralEscape): (r: Option<(string, string)>)
    ensures r.Some? ==> |r.value.1| < |text|
  {
    if text == "" then None
    else if text[0] == '\'' then
      if escape != Backslash && |text| > 1 && text[1] == '\'' then Prefixed('\'', ReadBody(text[2..], escape))
      else Some(("", text[1..]))
    else if text[0] == '\\' && escape != Standard then
      if |text| > 1 && (text[1] == '\\' || text[1] == '\'') then Prefixed(text[1], ReadBody(text[2..], escape))
      else None
    else Prefixed(text[0], ReadBody(text[1..], escape))
  }

  function Prefixed(c: char, r: Option<(string, string)>): Option<(string, string)> {
    match r
    case None => None
    case Some((value, rest)) => Some(([c] + value, rest))
  }

  lemma {:induction false} ReplaceIsEscaped(value: string)
    ensures ReplaceAll(value, '\'', "''") == Escaped(value, Standard)
    ensures ReplaceAll(ReplaceAll(value, '\\', "\\\\"), '\'', "''") == Escaped(value, DoubleAndBackslash)
    ensures ReplaceAll(ReplaceAll(value, '\\', "\\\\"), '\'', "\\'") == Escaped(value, Backslash)
  {
    if value != "" {
      ReplaceIsEscaped(value[1..]);
      var rest := ReplaceAll(value[1..], '\\', "\\\\");
      var whole := ReplaceAll(value, '\\', "\\\\");
      if value[0] == '\\' {
        assert whole[1..] == "\\" + rest && whole[1..][1..] == rest;
      } else {
        assert whole[1..] == rest;
      }
    }
  }

  lemma CharReadsBack(c: char, escape: LiteralEscape, tail: string)
    ensures ReadBody(EscapeChar(c, escape) + tail, escape) == Prefixed(c, ReadBody(tail, escape))
  {
    var head := EscapeChar(c, escape);
    var text := head + tail;
    assert text[|head|..] == tail && text[0] == head[0] && (|head| == 2 ==> text[1] == head[1]);
  }

  lemma {:induction false} BodyReadsBack(value: string, escape: LiteralEscape, rest: string)
    requires escape == Backslash || rest == "" || rest[0] != '\''
    ensures ReadBody(Escaped(value, escape) + "'" + rest, escape) == Some((value, rest))
  {
    if value == "" {
      assert "" + "'" + rest == "'" + rest && ("'" + rest)[1..] == rest;
    } else {
      BodyReadsBack(value[1..], escape, rest);
      var head, body := EscapeChar(value[0], escape), Escaped(value[1..], escape);
      Assoc(head, body, "'");
      Assoc(head, body + "'", rest);
      CharReadsBack(value[0], escape, body + "'" + rest);
      assert value == [value[0]] + value[1..];
    }
  }

  lemma QuoteIsEscaped(value: string, escape: LiteralEscape)
    ensures QuoteAs(value, escape) == "'" + Escaped(value, escape) + "'"
  {
    ReplaceIsEscaped(value);
  }

  lemma QuoteReadsBack(value: string, escape: LiteralEscape, rest: string)
    requires escape == Backslash || rest == "" || rest[0] != '\''
    ensures
      var text := QuoteAs(value, escape) + rest;
      text[0] == '\'' && ReadBody(text[1..], escape) == Some((value, rest))
  {
    var text, body := QuoteAs(value, escape) + rest, Escaped(value, escape) + "'" + rest;
    assert text[0] == '\'' && text[1..] == body by {
      QuoteIsEscaped(value, escape);
      Assoc("'", Escaped(value, escape), "'");
      Assoc("'", Escaped(value, escape) + "'", rest);
      assert text == "'" + body;
    }
    BodyReadsBack(value, escape, rest);
  }

  /** A quoted value is one literal, read back as exactly that value, whatever it holds. */
  lemma LiteralReadsBack(value: string, dialect: Option<Dialect>, rest: string)
    requires rest == "" || rest[0] != '\''
    ensures
      var text := QuoteLiteral(value, dialect) + rest;
      text[0] == '\'' && ReadBody(text[1..], EscapeOf(dialect)) == Some((value, rest))
  {
    QuoteReadsBack(value, EscapeOf(dialect), rest);
  }

  // ---------------------------------------------------------------------------
  // Identifiers

  /** The characters that open and close a quoted identifier. */
  function IdentifierQuotes(dialect: Option<Dialect>): (char, char) {
    match dialect
    case Some(Opensearch) => ('`', '`')
    case Some(Mysql) => ('`', '`')
    case Some(Mssql) => ('[', ']')
    case _ => ('"', '"')
  }

  function QuoteIdentifier(name: string, dialect: Option<Dialect>): string {
    QuoteNameAs(name, IdentifierQuotes(dialect))
  }

  function QuoteNameAs(name: string, quotes: (char, char)): string {
    [quotes.0] + ReplaceAll(name, quotes.1, [quotes.1, quotes.1]) + [quotes.1]
  }

  /** The name up to the closing quote, a doubled one standing for itself. */
  function ReadName(text: string, close: char): (r: Option<(string, string)>)
    ensures r.Some? ==> |r.value.1| < |text|
  {
    if text == "" then None
    else if text[0] == close then
      if |text| > 1 && text[1] == close then Prefixed(close, ReadName(text[2..], close))
      else Some(("", text[1..]))
    else Prefixed(text[0], ReadName(text[1..], close))
  }

  lemma {:induction false} NameReadsBack(name: string, close: char, rest: string)
    requires rest == "" || rest[0] != close
    ensures ReadName(ReplaceAll(name, close, [close, close]) + [close] + rest, close) == Some((name, rest))
  {
    var text := ReplaceAll(name, close, [close, close]) + [close] + rest;
    if name == "" {
      assert text == [close] + rest && text[1..] == rest;
    } else {
      NameReadsBack(name[1..], close, rest);
      var head := if name[0] == close then [close, close] else [name[0]];
      var body := ReplaceAll(name[1..], close, [close, close]);
      var tail := body + [close] + rest;
      Assoc(head, body, [close]);
      Assoc(head, body + [close], rest);
      assert text[|head|..] == tail;
      assert name == [name[0]] + name[1..];
    }
  }

  lemma IdentifierReadsBack(name: string, quotes: (char, char), rest: string)
    requires rest == "" || rest[0] != quotes.1
    ensures
      var text := QuoteNameAs(name, quotes) + rest;
      text[0] == quotes.0 && ReadName(text[1..], quotes.1) == Some((name, rest))
  {
    var close := quotes.1;
    NameReadsBack(name, close, rest);
    var text := QuoteNameAs(name, quotes) + rest;
    assert text[1..] == ReplaceAll(name, close, [close, close]) + [close] + rest;
  }

  /** A quoted identifier names exactly what it quotes, even where the name spells SQL. */
  lemma DialectNameReadsBack(name: string, dialect: Option<Dialect>, rest: string)
    requires rest == "" || rest[0] != IdentifierQuotes(dialect).1
    ensures
      var text, quotes := QuoteIdentifier(name, dialect) + rest, IdentifierQuotes(dialect);
      text[0] == quotes.0 && ReadName(text[1..], quotes.1) == Some((name, rest))
  {
    IdentifierReadsBack(name, IdentifierQuotes(dialect), rest);
  }

  // ---------------------------------------------------------------------------
  // Placeholders

  /** Numbered with a prefix, a bare `?`, or no positional bind form at all. */
  datatype Bind = Numbered(prefix: string) | Positional | NoBind

  function BindOf(dialect: Dialect): Bind {
    match dialect
    case Postgres => Numbered("$")
    case Couchbase => Numbered("$")
    case Duckdb => Positional
    case Mysql => Positional
    case Sqlite => Positional
    case Druid => Positional
    case Oracle => Numbered(":")
    case Mssql => Numbered("@p")
    case _ => NoBind
  }

  /** `positionalPlaceholder`: null where no positional bind form is pinned. */
  function Placeholder(bind: Bind, position: nat): Option<string> {
    match bind
    case Numbered(prefix) => Some(prefix + Decimal(position))
    case Positional => Some("?")
    case NoBind => None
  }

  // ---------------------------------------------------------------------------
  // Everything a statement generator asks of a dialect

  datatype Grammar = Grammar(bind: Bind, escape: LiteralEscape, quotes: (char, char))

  function GrammarOf(dialect: Dialect): (g: Grammar)
    ensures WellFormed(g)
  {
    Grammar(BindOf(dialect), EscapeOf(Some(dialect)), IdentifierQuotes(Some(dialect)))
  }

  /** True of every dialect: a prefix ends in no digit and begins like no other value. */
  predicate WellFormed(g: Grammar) {
    && (g.bind.Numbered? ==> g.bind.prefix != "" && IsBindSign(g.bind.prefix[0]))
    && g.quotes.1 != ' '
  }

  predicate IsBindSign(c: char) { c == '$' || c == ':' || c == '@' || c == '?' }

  // ---------------------------------------------------------------------------
  // The dialects by their spelling

  lemma ReplaceOne(c: char, d: char, sub: string)
    ensures ReplaceAll([c], d, sub) == if c == d then sub else [c]
  {
    assert [c][1..] == "";
    assert sub + "" == sub && [c] + "" == [c];
  }

  lemma {:induction false} ReplaceAbsent(s: string, c: char, sub: string)
    requires c !in s
    ensures ReplaceAll(s, c, sub) == s
  {
    if s != "" {
      ReplaceAbsent(s[1..], c, sub);
    }
  }

  /** A backslash is doubled for the engines that take it for an escape, and is plain data for all others. */
  lemma BackslashSpelling(dialect: Option<Dialect>)
    ensures QuoteLiteral("\\", dialect) ==
      if dialect in {Some(Mysql), Some(Clickhouse), Some(Opensearch), Some(Couchbase)} then "'\\\\'" else "'\\'"
  {
    ReplaceOne('\\', '\\', "\\\\");
    ReplaceOne('\\', '\'', "''");
    ReplaceAbsent("\\\\", '\'', "''");
    ReplaceAbsent("\\\\", '\'', "\\'");
  }

  /** A quote is doubled for every engine but Couchbase, which knows the backslash only. */
  lemma QuoteSpelling(dialect: Option<Dialect>)
    ensures QuoteLiteral("'", dialect) == if dialect == Some(Couchbase) then "'\\''" else "''''"
  {
    ReplaceOne('\'', '\\', "\\\\");
    ReplaceOne('\'', '\'', "''");
    ReplaceOne('\'', '\'', "\\'");
  }

  /** MySQL and OpenSearch quote a name with backticks, SQL Server with brackets, the others as the standard does. */
  lemma NameSpelling(dialect: Option<Dialect>)
    ensures dialect in {Some(Mysql), Some(Opensearch)} ==> QuoteIdentifier("n", dialect) == "`n`"
    ensures dialect == Some(Mssql) ==> QuoteIdentifier("n", dialect) == "[n]"
    ensures dialect !in {Some(Mysql), Some(Opensearch), Some(Mssql)} ==> QuoteIdentifier("n", dialect) == "\"n\""
  {
    var (open, close) := IdentifierQuotes(dialect);
    ReplaceOne('n', close, [close, close]);
    assert QuoteIdentifier("n", dialect) == [open, 'n', close];
  }

  /** The placeholder of the first parameter; an engine without one gets its values as literals. */
  lemma PlaceholderSpelling(dialect: Dialect)
    ensures Placeholder(BindOf(dialect), 1) ==
      if dialect in {Postgres, Couchbase} then Some("$1")
      else if dialect == Oracle then Some(":1")
      else if dialect == Mssql then Some("@p1")
      else if dialect in {Duckdb, Mysql, Sqlite, Druid} then Some("?")
      else None
  {
    assert Decimal(1) == "1";
    assert "$" + "1" == "$1" && ":" + "1" == ":1" && "@p" + "1" == "@p1";
  }
}
