/**
 The whole import script, read statement by statement: for exactly which target and headers it
 is the CREATE and the INSERTs that were meant.
 */
module ImportScript {
  import opened Options
  import opened Sequences
  import opened Strings
  import opened SqlText
  import Csv
  import opened ObjectPath
  import opened ImportSql

  // ---------------------------------------------------------------------------
  // The reader: names are quoted or plain, a table is a dotted path of them

  datatype Said =
    | Create(table: seq<string>, defs: seq<(string, SqlType)>)
    | Insert(table: seq<string>, columns: seq<string>, rows: seq<seq<Token>>)

  /** Names separated by `, ` up to the closing parenthesis. */
  function ReadNames(text: string, lex: Lexicon): (r: Option<(seq<string>, string)>)
    ensures r.Some? ==> |r.value.1| < |text| && r.value.0 != []
    decreases |text|
  {
    match ReadSegment(text, lex)
    case None => None
    case Some((name, rest)) =>
      if Starts(rest, ")") then Some(([name], rest[1..]))
      else
        match Strip(rest, ", ")
        case None => None
        case Some(more) =>
          match ReadNames(more, lex)
          case None => None
          case Some((names, rest')) => Some(([name] + names, rest'))
  }

  predicate IsUpper(c: char) { 'A' <= c <= 'Z' }

  function ReadType(text: string): (r: Option<(SqlType, string)>)
    ensures r.Some? ==> |r.value.1| <= |text|
  {
    var k := RunLength(text, IsUpper);
    var word, rest := text[..k], text[k..];
    if word == "TEXT" then Some((TEXT, rest))
    else if word == "INTEGER" then Some((INTEGER, rest))
    else if word == "NUMERIC" then Some((NUMERIC, rest))
    else if word == "BOOLEAN" then Some((BOOLEAN, rest))
    else None
  }

  /** `  name TYPE` */
  function ReadDef(text: string, lex: Lexicon): (r: Option<((string, SqlType), string)>)
    ensures r.Some? ==> |r.value.1| < |text|
  {
    match Strip(text, "  ")
    case None => None
    case Some(def) =>
      match ReadSegment(def, lex)
      case None => None
      case Some((name, rest)) =>
        match Strip(rest, " ")
        case None => None
        case Some(typed) =>
          match ReadType(typed)
          case None => None
          case Some((sqlType, rest')) => Some(((name, sqlType), rest'))
  }

  /** Definitions separated by `,` and a line feed. */
  function ReadDefs(text: string, lex: Lexicon): (r: Option<(seq<(string, SqlType)>, string)>)
    ensures r.Some? ==> |r.value.1| < |text| && r.value.0 != []
    decreases |text|
  {
    match ReadDef(text, lex)
    case None => None
    case Some((def, rest)) =>
      match Strip(rest, ",\n")
      case None => Some(([def], rest))
      case Some(more) =>
        match ReadDefs(more, lex)
        case None => None
        case Some((defs, rest')) => Some(([def] + defs, rest'))
  }

  function ReadCreateBody(table: seq<string>, text: string, lex: Lexicon): (r: Option<(Said, string)>)
    ensures r.Some? ==> |r.value.1| < |text|
  {
    match Strip(text, " (\n")
    case None => None
    case Some(body) =>
      match ReadDefs(body, lex)
      case None => None
      case Some((defs, rest)) =>
        match Strip(rest, "\n);")
        case None => None
        case Some(end) => Some((Create(table, defs), end))
  }

  function ReadInsertBody(table: seq<string>, text: string, lex: Lexicon, escape: LiteralEscape): (r: Option<(Said, string)>)
    ensures r.Some? ==> |r.value.1| < |text|
  {
    match Strip(text, " (")
    case None => None
    case Some(list) =>
      match ReadNames(list, lex)
      case None => None
      case Some((columns, rest)) =>
        match ReadValues(rest, escape)
        case None => None
        case Some((rows, end)) => Some((Insert(table, columns, rows), end))
  }

  function ReadValues(text: string, escape: LiteralEscape): (r: Option<(seq<seq<Token>>, string)>)
    ensures r.Some? ==> |r.value.1| < |text|
  {
    match Strip(text, "\nVALUES\n")
    case None => None
    case Some(values) =>
      match ReadRows(values, escape)
      case None => None
      case Some((rows, end)) =>
        match Strip(end, ";")
        case None => None
        case Some(end') => Some((rows, end'))
  }

  function ReadStatement(text: string, lex: Lexicon, escape: LiteralEscape): (r: Option<(Said, string)>)
    ensures r.Some? ==> |r.value.1| < |text|
  {
    match Strip(text, "CREATE TABLE ")
    case Some(create) =>
      (match ReadPath(create, lex)
       case None => None
       case Some((table, rest)) => ReadCreateBody(table, rest, lex))
    case None =>
      match Strip(text, "INSERT INTO ")
      case None => None
      case Some(insert) =>
        match ReadPath(insert, lex)
        case None => None
        case Some((table, rest)) => ReadInsertBody(table, rest, lex, escape)
  }

  /** Statements separated by a blank line, to the end of the text. */
  function ReadScript(text: string, lex: Lexicon, escape: LiteralEscape): (r: Option<seq<Said>>)
    ensures r.Some? ==> r.value != []
    decreases |text|
  {
    match ReadStatement(text, lex, escape)
    case None => None
    case Some((said, rest)) =>
      if rest == "" then Some([said])
      else
        match Strip(rest, "\n\n")
        case None => None
        case Some(more) =>
          match ReadScript(more, lex, escape)
          case None => None
          case Some(others) => Some([said] + others)
  }

  // ---------------------------------------------------------------------------
  // A list of columns reads back exactly where each is plain

  lemma JoinCons(parts: seq<string>, separator: string, rest: string)
    requires |parts| > 1
    ensures Join(parts, separator) + rest == parts[0] + (separator + (Join(parts[1..], separator) + rest))
  {
    var more := Join(parts[1..], separator);
    Assoc(parts[0] + separator, more, rest);
    Assoc(parts[0], separator, more + rest);
  }

  /** One element more is the same list exactly where the elements and the rest are. */
  lemma ConsIff<T>(list: seq<T>)
    requires list != []
    ensures forall x, more: seq<T> :: [x] + more == list <==> x == list[0] && more == list[1..]
  {
    forall x, more: seq<T> ensures [x] + more == list <==> x == list[0] && more == list[1..] {
      assert ([x] + more)[1..] == more && ([x] + more)[0] == x;
      assert list == [list[0]] + list[1..];
    }
  }

  ghost predicate AllPlain(names: seq<string>, lex: Lexicon) {
    forall name <- names :: Plain(name, lex)
  }

  lemma AllPlainCons(names: seq<string>, lex: Lexicon)
    requires names != []
    ensures AllPlain(names, lex) <==> Plain(names[0], lex) && AllPlain(names[1..], lex)
  {
    assert names == [names[0]] + names[1..];
  }

  lemma LastNameReads(text: string, name: string, rest: string, lex: Lexicon)
    requires ReadSegment(text, lex) == Some((name, ")" + rest))
    ensures ReadNames(text, lex) == Some(([name], rest))
  {
    StripPrefix(")", rest);
  }

  lemma NextNameReads(text: string, name: string, more: string, lex: Lexicon)
    requires ReadSegment(text, lex) == Some((name, ", " + more))
    ensures ReadNames(text, lex) ==
      if ReadNames(more, lex).Some? then Some(([name] + ReadNames(more, lex).value.0, ReadNames(more, lex).value.1)) else None
  {
    StripOther(", " + more, ")", 0);
    StripPrefix(", ", more);
  }

  lemma FirstNameOf(text: string, lex: Lexicon)
    requires ReadNames(text, lex).Some?
    ensures ReadSegment(text, lex).Some? && ReadSegment(text, lex).value.0 == ReadNames(text, lex).value.0[0]
  {
  }

  lemma {:induction false} NamesReadBackIff(names: seq<string>, lex: Lexicon, rest: string)
    requires names != [] && GoodQuotes(lex.quotes)
    ensures Gives(ReadNames(Join(names, ", ") + (")" + rest), lex), names) <==> AllPlain(names, lex)
    ensures AllPlain(names, lex) ==> ReadNames(Join(names, ", ") + (")" + rest), lex) == Some((names, rest))
  {
    var text := Join(names, ", ") + (")" + rest);
    var more := Join(names[1..], ", ") + (")" + rest);
    AllPlainCons(names, lex);
    ConsIff(names);
    if |names| == 1 {
      RawReadsBackIff(names[0], lex, ")" + rest);
      assert names == [names[0]];
    } else {
      JoinCons(names, ", ", ")" + rest);
      RawReadsBackIff(names[0], lex, ", " + more);
    }
    if !Plain(names[0], lex) {
      if ReadNames(text, lex).Some? { FirstNameOf(text, lex); }
    } else if |names| == 1 {
      LastNameReads(text, names[0], rest, lex);
    } else {
      NextNameReads(text, names[0], more, lex);
      NamesReadBackIff(names[1..], lex, rest);
    }
  }

  lemma NoNames(lex: Lexicon, rest: string)
    requires GoodQuotes(lex.quotes)
    ensures ReadNames(")" + rest, lex) == None
  {
    RunLengthOf("", ")" + rest, WordChars(lex.hash));
    assert "" + (")" + rest) == ")" + rest;
  }

  // ---------------------------------------------------------------------------
  // And so does a list of definitions

  function DefText(name: string, sqlType: SqlType): string {
    "  " + name + " " + TypeName(sqlType)
  }

  function Defs(columns: seq<string>, types: seq<SqlType>): (r: seq<(string, SqlType)>)
    requires |columns| == |types|
    ensures |r| == |columns|
  {
    if columns == [] then [] else [(columns[0], types[0])] + Defs(columns[1..], types[1..])
  }

  function DefTexts(columns: seq<string>, types: seq<SqlType>): (r: seq<string>)
    requires |columns| == |types|
    ensures |r| == |columns|
  {
    if columns == [] then [] else [DefText(columns[0], types[0])] + DefTexts(columns[1..], types[1..])
  }

  lemma {:induction false} DefTextAt(columns: seq<string>, types: seq<SqlType>, i: nat)
    requires |columns| == |types| && i < |columns|
    ensures DefTexts(columns, types)[i] == DefText(columns[i], types[i])
  {
    if i > 0 {
      DefTextAt(columns[1..], types[1..], i - 1);
    }
  }

  lemma TypeReadsBack(sqlType: SqlType, rest: string)
    requires rest != "" && !IsUpper(rest[0])
    ensures ReadType(TypeName(sqlType) + rest) == Some((sqlType, rest))
  {
    var word := TypeName(sqlType);
    RunLengthOf(word, rest, IsUpper);
    assert (word + rest)[..|word|] == word && (word + rest)[|word|..] == rest;
  }

  lemma DefAsRead(name: string, sqlType: SqlType, rest: string)
    ensures DefText(name, sqlType) + rest == "  " + (name + (" " + (TypeName(sqlType) + rest)))
  {
    var typed := TypeName(sqlType) + rest;
    Assoc("  " + name + " ", TypeName(sqlType), rest);
    Assoc("  " + name, " ", typed);
    Assoc("  ", name, " " + typed);
  }

  lemma DefReadsBackIff(name: string, sqlType: SqlType, lex: Lexicon, rest: string)
    requires GoodQuotes(lex.quotes) && rest != "" && !IsUpper(rest[0])
    ensures
      var read := ReadDef(DefText(name, sqlType) + rest, lex);
      && (Plain(name, lex) ==> read == Some(((name, sqlType), rest)))
      && (!Plain(name, lex) && read.Some? ==> read.value.0.0 != name)
  {
    var typed := TypeName(sqlType) + rest;
    DefAsRead(name, sqlType, rest);
    StripPrefix("  ", name + (" " + typed));
    RawReadsBackIff(name, lex, " " + typed);
    StripPrefix(" ", typed);
    TypeReadsBack(sqlType, rest);
  }

  lemma LastDefReads(text: string, def: (string, SqlType), rest: string, lex: Lexicon)
    requires ReadDef(text, lex) == Some((def, "\n);" + rest))
    ensures ReadDefs(text, lex) == Some(([def], "\n);" + rest))
  {
    StripOther("\n);" + rest, ",\n", 0);
  }

  lemma NextDefReads(text: string, def: (string, SqlType), more: string, lex: Lexicon)
    requires ReadDef(text, lex) == Some((def, ",\n" + more))
    ensures ReadDefs(text, lex) ==
      if ReadDefs(more, lex).Some? then Some(([def] + ReadDefs(more, lex).value.0, ReadDefs(more, lex).value.1)) else None
  {
    StripPrefix(",\n", more);
  }

  lemma FirstDefOf(text: string, lex: Lexicon)
    requires ReadDefs(text, lex).Some?
    ensures ReadDef(text, lex).Some? && ReadDef(text, lex).value.0 == ReadDefs(text, lex).value.0[0]
  {
  }

  lemma {:induction false} DefsReadBackIff(columns: seq<string>, types: seq<SqlType>, lex: Lexicon, rest: string)
    requires |columns| == |types| && columns != [] && GoodQuotes(lex.quotes)
    ensures
      var read := ReadDefs(Join(DefTexts(columns, types), ",\n") + ("\n);" + rest), lex);
      && (Gives(read, Defs(columns, types)) <==> AllPlain(columns, lex))
      && (AllPlain(columns, lex) ==> read == Some((Defs(columns, types), "\n);" + rest)))
  {
    var texts, defs, end := DefTexts(columns, types), Defs(columns, types), "\n);" + rest;
    var text, more := Join(texts, ",\n") + end, Join(DefTexts(columns[1..], types[1..]), ",\n") + end;
    AllPlainCons(columns, lex);
    ConsIff(defs);
    assert texts[1..] == DefTexts(columns[1..], types[1..]) && defs[1..] == Defs(columns[1..], types[1..]);
    if |columns| == 1 {
      DefReadsBackIff(columns[0], types[0], lex, end);
      assert texts == [texts[0]] && defs == [defs[0]];
    } else {
      JoinCons(texts, ",\n", end);
      DefReadsBackIff(columns[0], types[0], lex, ",\n" + more);
    }
    if !Plain(columns[0], lex) {
      if ReadDefs(text, lex).Some? { FirstDefOf(text, lex); }
    } else if |columns| == 1 {
      LastDefReads(text, defs[0], rest, lex);
    } else {
      NextDefReads(text, defs[0], more, lex);
      DefsReadBackIff(columns[1..], types[1..], lex, rest);
    }
  }

  lemma NoDefs(lex: Lexicon, rest: string)
    ensures ReadDefs("\n);" + rest, lex) == None
  {
    StripOther("\n);" + rest, "  ", 0);
  }

  // ---------------------------------------------------------------------------
  // One statement

  /** The table's address reads back as its own segments. */
  ghost predicate TableSpelled(path: seq<string>, caps: Option<Capabilities>, lex: Lexicon) {
    path != [] && forall segment <- path :: Spelled(segment, caps, lex)
  }

  lemma NoPath(lex: Lexicon, rest: string)
    requires GoodQuotes(lex.quotes)
    ensures ReadPath(" " + rest, lex) == None
  {
    RunLengthOf("", " " + rest, WordChars(lex.hash));
    assert "" + (" " + rest) == " " + rest;
  }

  lemma TableReadsBackIff(path: seq<string>, caps: Option<Capabilities>, lex: Lexicon, after: string)
    requires Fits(lex, caps) && after != "" && after[0] == ' '
    ensures
      var read := ReadPath(PathText(path, caps) + after, lex);
      && (Gives(read, path) <==> TableSpelled(path, caps, lex))
      && (TableSpelled(path, caps, lex) ==> read == Some((path, after)))
  {
    if path == [] {
      NoPath(lex, after[1..]);
      assert PathText(path, caps) + after == " " + after[1..];
    } else {
      PathReadsBackIff(path, caps, lex, after);
    }
  }

  lemma CreateBodyIff(table: seq<string>, columns: seq<string>, types: seq<SqlType>, lex: Lexicon, rest: string)
    requires |columns| == |types| && GoodQuotes(lex.quotes)
    ensures
      var read := ReadCreateBody(table, " (\n" + (Join(DefTexts(columns, types), ",\n") + ("\n);" + rest)), lex);
      && (Gives(read, Create(table, Defs(columns, types))) <==> columns != [] && AllPlain(columns, lex))
      && (columns != [] && AllPlain(columns, lex) ==> read == Some((Create(table, Defs(columns, types)), rest)))
  {
    var body := Join(DefTexts(columns, types), ",\n") + ("\n);" + rest);
    StripPrefix(" (\n", body);
    StripPrefix("\n);", rest);
    if columns == [] {
      NoDefs(lex, rest);
      assert body == "\n);" + rest;
    } else {
      DefsReadBackIff(columns, types, lex, rest);
    }
  }

  lemma ValuesAreRead(batch: seq<ImportSql.Row>, types: seq<SqlType>, escape: LiteralEscape, rest: string)
    requires batch != []
    ensures ReadValues("\nVALUES\n" + (RowsText(batch, types, escape) + (";" + rest)), escape) == Some((RowTokens(batch, types), rest))
  {
    StripPrefix("\nVALUES\n", RowsText(batch, types, escape) + (";" + rest));
    StripOther(";" + rest, ",\n", 0);
    RowsReadBack(batch, types, escape, ";" + rest);
    StripPrefix(";", rest);
  }

  lemma InsertBodyIff(table: seq<string>, columns: seq<string>, batch: seq<ImportSql.Row>, types: seq<SqlType>,
                      lex: Lexicon, escape: LiteralEscape, rest: string)
    requires batch != [] && GoodQuotes(lex.quotes)
    ensures
      var values := "\nVALUES\n" + (RowsText(batch, types, escape) + (";" + rest));
      var read := ReadInsertBody(table, " (" + (Join(columns, ", ") + (")" + values)), lex, escape);
      && (Gives(read, Insert(table, columns, RowTokens(batch, types))) <==> columns != [] && AllPlain(columns, lex))
      && (columns != [] && AllPlain(columns, lex) ==> read == Some((Insert(table, columns, RowTokens(batch, types)), rest)))
  {
    var values := "\nVALUES\n" + (RowsText(batch, types, escape) + (";" + rest));
    var list := Join(columns, ", ") + (")" + values);
    StripPrefix(" (", list);
    ValuesAreRead(batch, types, escape, rest);
    if columns == [] {
      NoNames(lex, values);
      assert list == ")" + values;
    } else {
      NamesReadBackIff(columns, lex, values);
    }
  }

  lemma CreateOpens(text: string, lex: Lexicon, escape: LiteralEscape)
    ensures ReadStatement("CREATE TABLE " + text, lex, escape) ==
      if ReadPath(text, lex).Some? then ReadCreateBody(ReadPath(text, lex).value.0, ReadPath(text, lex).value.1, lex) else None
  {
    StripPrefix("CREATE TABLE ", text);
  }

  lemma InsertOpens(text: string, lex: Lexicon, escape: LiteralEscape)
    ensures ReadStatement("INSERT INTO " + text, lex, escape) ==
      if ReadPath(text, lex).Some? then ReadInsertBody(ReadPath(text, lex).value.0, ReadPath(text, lex).value.1, lex, escape) else None
  {
    StripOther("INSERT INTO " + text, "CREATE TABLE ", 0);
    StripPrefix("INSERT INTO ", text);
  }

  lemma CreateAsRead(table: string, columns: seq<string>, types: seq<SqlType>, rest: string)
    requires |columns| == |types|
    ensures CreateText(table, columns, types) + rest
         == "CREATE TABLE " + (table + (" (\n" + (Join(DefTexts(columns, types), ",\n") + ("\n);" + rest))))
  {
    var colDefs := seq(|columns|, i requires 0 <= i < |columns| => "  " + columns[i] + " " + TypeName(types[i]));
    forall i | 0 <= i < |columns| ensures colDefs[i] == DefTexts(columns, types)[i] {
      DefTextAt(columns, types, i);
    }
    assert colDefs == DefTexts(columns, types);
    var defs := Join(DefTexts(columns, types), ",\n");
    var body := defs + ("\n);" + rest);
    Assoc("CREATE TABLE " + table + " (\n" + defs, "\n);", rest);
    Assoc("CREATE TABLE " + table + " (\n", defs, "\n);" + rest);
    Assoc("CREATE TABLE " + table, " (\n", body);
    Assoc("CREATE TABLE ", table, " (\n" + body);
  }

  lemma InsertAsRead(table: string, columns: seq<string>, batch: seq<ImportSql.Row>, types: seq<SqlType>,
                     escape: LiteralEscape, rest: string)
    ensures InsertText(table, columns, batch, types, escape) + rest
         == "INSERT INTO " + (table + (" (" + (Join(columns, ", ")
              + (")" + ("\nVALUES\n" + (RowsText(batch, types, escape) + (";" + rest)))))))
  {
    var list, rows := Join(columns, ", "), RowsText(batch, types, escape);
    var values := rows + (";" + rest);
    Assoc("INSERT INTO " + table + " (" + list + ")\nVALUES\n", rows + ";", rest);
    Assoc(rows, ";", rest);
    Assoc("INSERT INTO " + table + " (" + list, ")\nVALUES\n", values);
    Assoc("INSERT INTO " + table + " (", list, ")\nVALUES\n" + values);
    Assoc("INSERT INTO " + table, " (", list + (")\nVALUES\n" + values));
    Assoc("INSERT INTO ", table, " (" + (list + (")\nVALUES\n" + values)));
    Assoc(")", "\nVALUES\n", values);
    assert ")\nVALUES\n" == ")" + "\nVALUES\n";
  }

  /** The condition on a statement's names. */
  ghost predicate NamesSpelled(path: seq<string>, caps: Option<Capabilities>, columns: seq<string>, lex: Lexicon) {
    TableSpelled(path, caps, lex) && columns != [] && AllPlain(columns, lex)
  }

  lemma CreateReadsBackIff(path: seq<string>, caps: Option<Capabilities>, columns: seq<string>, types: seq<SqlType>,
                           lex: Lexicon, escape: LiteralEscape, rest: string)
    requires |columns| == |types| && Fits(lex, caps)
    ensures
      var read := ReadStatement(CreateText(PathText(path, caps), columns, types) + rest, lex, escape);
      && (Gives(read, Create(path, Defs(columns, types))) <==> NamesSpelled(path, caps, columns, lex))
      && (NamesSpelled(path, caps, columns, lex) ==> read == Some((Create(path, Defs(columns, types)), rest)))
  {
    var after := " (\n" + (Join(DefTexts(columns, types), ",\n") + ("\n);" + rest));
    CreateAsRead(PathText(path, caps), columns, types, rest);
    TableReadsBackIff(path, caps, lex, after);
    if TableSpelled(path, caps, lex) {
      CreateTableThen(PathText(path, caps) + after, path, after, lex, escape);
      CreateBodyIff(path, columns, types, lex, rest);
    } else {
      CreateTableElse(PathText(path, caps) + after, path, Defs(columns, types), lex, escape);
    }
  }

  /** Once its table is read, a CREATE is what its body is. */
  lemma CreateTableThen(text: string, path: seq<string>, after: string, lex: Lexicon, escape: LiteralEscape)
    requires ReadPath(text, lex) == Some((path, after))
    ensures ReadStatement("CREATE TABLE " + text, lex, escape) == ReadCreateBody(path, after, lex)
  {
    CreateOpens(text, lex, escape);
  }

  lemma CreateTableElse(text: string, path: seq<string>, defs: seq<(string, SqlType)>, lex: Lexicon, escape: LiteralEscape)
    requires !Gives(ReadPath(text, lex), path)
    ensures !Gives(ReadStatement("CREATE TABLE " + text, lex, escape), Create(path, defs))
  {
    CreateOpens(text, lex, escape);
  }

  lemma InsertReadsBackIff(path: seq<string>, caps: Option<Capabilities>, columns: seq<string>, batch: seq<ImportSql.Row>,
                           types: seq<SqlType>, lex: Lexicon, escape: LiteralEscape, rest: string)
    requires batch != [] && Fits(lex, caps)
    ensures
      var read := ReadStatement(InsertText(PathText(path, caps), columns, batch, types, escape) + rest, lex, escape);
      && (Gives(read, Insert(path, columns, RowTokens(batch, types))) <==> NamesSpelled(path, caps, columns, lex))
      && (NamesSpelled(path, caps, columns, lex) ==> read == Some((Insert(path, columns, RowTokens(batch, types)), rest)))
  {
    var values := "\nVALUES\n" + (RowsText(batch, types, escape) + (";" + rest));
    var after := " (" + (Join(columns, ", ") + (")" + values));
    InsertAsRead(PathText(path, caps), columns, batch, types, escape, rest);
    TableReadsBackIff(path, caps, lex, after);
    if TableSpelled(path, caps, lex) {
      InsertTableThen(PathText(path, caps) + after, path, after, lex, escape);
      InsertBodyIff(path, columns, batch, types, lex, escape, rest);
    } else {
      InsertTableElse(PathText(path, caps) + after, path, columns, RowTokens(batch, types), lex, escape);
    }
  }

  lemma InsertTableThen(text: string, path: seq<string>, after: string, lex: Lexicon, escape: LiteralEscape)
    requires ReadPath(text, lex) == Some((path, after))
    ensures ReadStatement("INSERT INTO " + text, lex, escape) == ReadInsertBody(path, after, lex, escape)
  {
    InsertOpens(text, lex, escape);
  }

  lemma InsertTableElse(text: string, path: seq<string>, columns: seq<string>, rows: seq<seq<Token>>, lex: Lexicon, escape: LiteralEscape)
    requires !Gives(ReadPath(text, lex), path)
    ensures !Gives(ReadStatement("INSERT INTO " + text, lex, escape), Insert(path, columns, rows))
  {
    InsertOpens(text, lex, escape);
  }

  // ---------------------------------------------------------------------------
  // The whole script

  /** What is meant: an existing object's path, or the dotted parts of the name that was typed. */
  function MeantPath(target: Target): seq<string> {
    match target
    case Existing(path) => path
    case New(_) => SplitOn(TargetIdentifier(target, None), '.')
  }

  /** A typed name is emitted as it was typed. */
  function TargetCaps(target: Target, caps: Option<Capabilities>): Option<Capabilities> {
    if target.New? then None else caps
  }

  lemma {:induction false} RawTexts(path: seq<string>)
    ensures SegmentTexts(path, None) == path
  {
    if path != [] {
      RawTexts(path[1..]);
      assert path == [path[0]] + path[1..];
    }
  }

  lemma TargetIsItsPath(target: Target, caps: Option<Capabilities>)
    ensures TargetIdentifier(target, caps) == PathText(MeantPath(target), TargetCaps(target, caps))
  {
    if target.New? {
      RawTexts(MeantPath(target));
      JoinOfSplit(TargetIdentifier(target, None), '.');
    }
  }

  function MeantInserts(batches: seq<seq<ImportSql.Row>>, path: seq<string>, columns: seq<string>, types: seq<SqlType>): (r: seq<Said>)
    ensures |r| == |batches|
  {
    seq(|batches|, i requires 0 <= i < |batches| => Insert(path, columns, RowTokens(batches[i], types)))
  }

  /** What the script is meant to say: the optional CREATE, and one INSERT a batch. */
  function Meant(data: Csv.ParsedData, target: Target, mapping: map<string, string>): seq<Said> {
    var path, types := MeantPath(target), ColumnTypes(data.headers, data.rows);
    var columns := MappedHeaders(data.headers, mapping);
    (if target.New? then [Create(path, Defs(columns, types))] else [])
      + MeantInserts(Batches(data.rows, 0), path, columns, types)
  }

  /** The text is this one statement to the reader if and only if `spelled`, whatever follows it. */
  ghost predicate ReadsIff(text: string, said: Said, spelled: bool, lex: Lexicon, escape: LiteralEscape) {
    && (forall rest :: Gives(ReadStatement(text + rest, lex, escape), said) <==> spelled)
    && (spelled ==> forall rest :: ReadStatement(text + rest, lex, escape) == Some((said, rest)))
  }

  ghost predicate AllReadIff(texts: seq<string>, said: seq<Said>, spelled: bool, lex: Lexicon, escape: LiteralEscape) {
    |texts| == |said| && forall i | 0 <= i < |texts| :: ReadsIff(texts[i], said[i], spelled, lex, escape)
  }

  lemma ReadsWith(text: string, said: Said, spelled: bool, lex: Lexicon, escape: LiteralEscape, rest: string)
    requires ReadsIff(text, said, spelled, lex, escape)
    ensures Gives(ReadStatement(text + rest, lex, escape), said) <==> spelled
    ensures spelled ==> ReadStatement(text + rest, lex, escape) == Some((said, rest))
  {
  }

  lemma ScriptEnds(text: string, said: Said, lex: Lexicon, escape: LiteralEscape)
    requires ReadStatement(text, lex, escape) == Some((said, ""))
    ensures ReadScript(text, lex, escape) == Some([said])
  {
  }

  lemma ScriptGoesOn(text: string, said: Said, more: string, lex: Lexicon, escape: LiteralEscape)
    requires ReadStatement(text, lex, escape) == Some((said, "\n\n" + more))
    ensures ReadScript(text, lex, escape) ==
      if ReadScript(more, lex, escape).Some? then Some([said] + ReadScript(more, lex, escape).value) else None
  {
    StripPrefix("\n\n", more);
  }

  lemma FirstStatementOf(text: string, lex: Lexicon, escape: LiteralEscape)
    requires ReadScript(text, lex, escape).Some?
    ensures Gives(ReadStatement(text, lex, escape), ReadScript(text, lex, escape).value[0])
  {
  }

  lemma StatementsReadBackIff(texts: seq<string>, said: seq<Said>, spelled: bool, lex: Lexicon, escape: LiteralEscape)
    requires texts != [] && AllReadIff(texts, said, spelled, lex, escape)
    ensures ReadScript(Join(texts, "\n\n"), lex, escape) == Some(said) <==> spelled
  {
    if spelled {
      StatementsReadBack(texts, said, lex, escape);
    } else {
      FirstFails(texts, said, lex, escape);
    }
  }

  lemma {:induction false} StatementsReadBack(texts: seq<string>, said: seq<Said>, lex: Lexicon, escape: LiteralEscape)
    requires texts != [] && AllReadIff(texts, said, true, lex, escape)
    ensures ReadScript(Join(texts, "\n\n"), lex, escape) == Some(said)
  {
    TailReadsIff(texts, said, true, lex, escape);
    HeadAndTail(texts);
    HeadAndTail(said);
    if |texts| == 1 {
      OnlyStatement(texts[0], said[0], lex, escape);
    } else {
      StatementsReadBack(texts[1..], said[1..], lex, escape);
      StatementBefore(texts[0], said[0], texts[1..], said[1..], lex, escape);
    }
  }

  lemma StatementBefore(text: string, one: Said, texts: seq<string>, said: seq<Said>, lex: Lexicon, escape: LiteralEscape)
    requires ReadsIff(text, one, true, lex, escape) && texts != []
    requires ReadScript(Join(texts, "\n\n"), lex, escape) == Some(said)
    ensures ReadScript(Join([text] + texts, "\n\n"), lex, escape) == Some([one] + said)
  {
    OneStatementMore(text, one, Join(texts, "\n\n"), lex, escape);
    Assoc(text, "\n\n", Join(texts, "\n\n"));
    JoinFirst(text, texts, "\n\n");
  }

  lemma TailReadsIff(texts: seq<string>, said: seq<Said>, spelled: bool, lex: Lexicon, escape: LiteralEscape)
    requires texts != [] && AllReadIff(texts, said, spelled, lex, escape)
    ensures ReadsIff(texts[0], said[0], spelled, lex, escape) && AllReadIff(texts[1..], said[1..], spelled, lex, escape)
  {
    forall i | 0 <= i < |texts| - 1 ensures ReadsIff(texts[1..][i], said[1..][i], spelled, lex, escape) {
      assert ReadsIff(texts[i + 1], said[i + 1], spelled, lex, escape);
    }
  }

  lemma OnlyStatement(text: string, said: Said, lex: Lexicon, escape: LiteralEscape)
    requires ReadsIff(text, said, true, lex, escape)
    ensures ReadScript(text, lex, escape) == Some([said])
  {
    ReadsWith(text, said, true, lex, escape, "");
    assert text + "" == text;
    ScriptEnds(text, said, lex, escape);
  }

  lemma OneStatementMore(text: string, said: Said, more: string, lex: Lexicon, escape: LiteralEscape)
    requires ReadsIff(text, said, true, lex, escape)
    ensures ReadScript(text + ("\n\n" + more), lex, escape) ==
      if ReadScript(more, lex, escape).Some? then Some([said] + ReadScript(more, lex, escape).value) else None
  {
    ReadsWith(text, said, true, lex, escape, "\n\n" + more);
    ScriptGoesOn(text + ("\n\n" + more), said, more, lex, escape);
  }

  lemma FirstFails(texts: seq<string>, said: seq<Said>, lex: Lexicon, escape: LiteralEscape)
    requires texts != [] && AllReadIff(texts, said, false, lex, escape)
    ensures ReadScript(Join(texts, "\n\n"), lex, escape) != Some(said)
  {
    var rest := if |texts| == 1 then "" else "\n\n" + Join(texts[1..], "\n\n");
    Assoc(texts[0], "\n\n", Join(texts[1..], "\n\n"));
    assert Join(texts, "\n\n") == texts[0] + rest;
    ScriptFails(texts[0], said, rest, lex, escape);
  }

  lemma ScriptFails(text: string, said: seq<Said>, rest: string, lex: Lexicon, escape: LiteralEscape)
    requires said != [] && ReadsIff(text, said[0], false, lex, escape)
    ensures ReadScript(text + rest, lex, escape) != Some(said)
  {
    ReadsWith(text, said[0], false, lex, escape, rest);
    if ReadScript(text + rest, lex, escape).Some? { FirstStatementOf(text + rest, lex, escape); }
  }

  lemma InsertsReadIff(batches: seq<seq<ImportSql.Row>>, path: seq<string>, caps: Option<Capabilities>, columns: seq<string>,
                       types: seq<SqlType>, lex: Lexicon, escape: LiteralEscape)
    requires Fits(lex, caps) && forall i | 0 <= i < |batches| :: batches[i] != []
    ensures AllReadIff(Inserts(batches, PathText(path, caps), columns, types, escape), MeantInserts(batches, path, columns, types),
                       NamesSpelled(path, caps, columns, lex), lex, escape)
  {
    forall i | 0 <= i < |batches|
      ensures ReadsIff(Inserts(batches, PathText(path, caps), columns, types, escape)[i], MeantInserts(batches, path, columns, types)[i],
                       NamesSpelled(path, caps, columns, lex), lex, escape)
    {
      InsertReadsIff(path, caps, columns, batches[i], types, lex, escape);
    }
  }

  lemma InsertReadsIff(path: seq<string>, caps: Option<Capabilities>, columns: seq<string>, batch: seq<ImportSql.Row>,
                       types: seq<SqlType>, lex: Lexicon, escape: LiteralEscape)
    requires batch != [] && Fits(lex, caps)
    ensures ReadsIff(InsertText(PathText(path, caps), columns, batch, types, escape), Insert(path, columns, RowTokens(batch, types)),
                     NamesSpelled(path, caps, columns, lex), lex, escape)
  {
    var text, said := InsertText(PathText(path, caps), columns, batch, types, escape), Insert(path, columns, RowTokens(batch, types));
    forall rest
      ensures Gives(ReadStatement(text + rest, lex, escape), said) <==> NamesSpelled(path, caps, columns, lex)
      ensures NamesSpelled(path, caps, columns, lex) ==> ReadStatement(text + rest, lex, escape) == Some((said, rest))
    {
      InsertReadsBackIff(path, caps, columns, batch, types, lex, escape, rest);
    }
  }

  lemma CreateReadsIff(path: seq<string>, caps: Option<Capabilities>, columns: seq<string>, types: seq<SqlType>,
                       lex: Lexicon, escape: LiteralEscape)
    requires |columns| == |types| && Fits(lex, caps)
    ensures ReadsIff(CreateText(PathText(path, caps), columns, types), Create(path, Defs(columns, types)),
                     NamesSpelled(path, caps, columns, lex), lex, escape)
  {
    var text, said := CreateText(PathText(path, caps), columns, types), Create(path, Defs(columns, types));
    forall rest
      ensures Gives(ReadStatement(text + rest, lex, escape), said) <==> NamesSpelled(path, caps, columns, lex)
      ensures NamesSpelled(path, caps, columns, lex) ==> ReadStatement(text + rest, lex, escape) == Some((said, rest))
    {
      CreateReadsBackIff(path, caps, columns, types, lex, escape, rest);
    }
  }

  lemma OneMoreReadsIff(text: string, one: Said, texts: seq<string>, said: seq<Said>, spelled: bool, lex: Lexicon, escape: LiteralEscape)
    requires ReadsIff(text, one, spelled, lex, escape) && AllReadIff(texts, said, spelled, lex, escape)
    ensures AllReadIff([text] + texts, [one] + said, spelled, lex, escape)
  {
  }

  lemma NothingIsRead(lex: Lexicon, escape: LiteralEscape)
    ensures ReadScript("", lex, escape) == None
  {
    StripOther("", "CREATE TABLE ", 0);
    StripOther("", "INSERT INTO ", 0);
  }

  /**
   Whatever the cells hold, the whole script reads as exactly one CREATE for a new table and one
   INSERT a batch, each with its table, columns and rows, if and only if there is something to say,
   each segment of the table's address is in quotes or needs none, there is a column, and every
   mapped header is a word the engine takes without quotes.
   */
  lemma ScriptReadsBackIff(data: Csv.ParsedData, target: Target, mapping: map<string, string>, dialect: Option<Dialect>,
                           caps: Option<Capabilities>, lex: Lexicon)
    requires Fits(lex, TargetCaps(target, caps))
    ensures
      var sql := Join(Statements(data, target, mapping, dialect, caps), "\n\n");
      (ReadScript(sql, lex, EscapeOf(dialect)) == Some(Meant(data, target, mapping))) <==>
        ((target.New? || data.rows != [])
         && NamesSpelled(MeantPath(target), TargetCaps(target, caps), MappedHeaders(data.headers, mapping), lex))
  {
    var path, caps', escape := MeantPath(target), TargetCaps(target, caps), EscapeOf(dialect);
    var columns, types := MappedHeaders(data.headers, mapping), ColumnTypes(data.headers, data.rows);
    var batches, spelled := Batches(data.rows, 0), NamesSpelled(path, caps', columns, lex);
    var inserts, meant := Inserts(batches, PathText(path, caps'), columns, types, escape), MeantInserts(batches, path, columns, types);
    TargetIsItsPath(target, caps);
    BatchesPartition(data.rows, 0);
    InsertsReadIff(batches, path, caps', columns, types, lex, escape);
    if target.New? {
      CreateReadsIff(path, caps', columns, types, lex, escape);
      OneMoreReadsIff(CreateText(PathText(path, caps'), columns, types), Create(path, Defs(columns, types)), inserts, meant, spelled, lex, escape);
      StatementsReadBackIff(Statements(data, target, mapping, dialect, caps), Meant(data, target, mapping), spelled, lex, escape);
    } else {
      assert Statements(data, target, mapping, dialect, caps) == inserts && Meant(data, target, mapping) == meant;
      if data.rows == [] {
        NothingIsRead(lex, escape);
      } else {
        StatementsReadBackIff(inserts, meant, spelled, lex, escape);
      }
    }
  }

  /** Into an existing object, with capabilities known and no reserved words in the way, only the headers decide. */
  lemma HeadersDecide(data: Csv.ParsedData, path: seq<string>, mapping: map<string, string>, dialect: Option<Dialect>,
                      caps: Capabilities, lex: Lexicon)
    requires data.rows != [] && data.headers != [] && path != []
    requires caps != JsonLanguage && Fits(lex, Some(caps)) && lex.reserved == {} && (caps == OraclePort ==> lex.hash)
    ensures
      var sql := Join(Statements(data, Existing(path), mapping, dialect, Some(caps)), "\n\n");
      (ReadScript(sql, lex, EscapeOf(dialect)) == Some(Meant(data, Existing(path), mapping))) <==>
        AllPlain(MappedHeaders(data.headers, mapping), lex)
  {
    ScriptReadsBackIff(data, Existing(path), mapping, dialect, Some(caps), lex);
    forall segment | segment in path ensures Spelled(segment, Some(caps), lex) {
      if Bare(segment, caps) { BareIsAWord(segment, caps, lex.hash); }
    }
  }
}
