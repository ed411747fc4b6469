/** The CSV reader of the import dialog (`parseCSV`), and exactly what survives it. */
module Csv {
  import opened Sequences
  import opened Strings

  // ---------------------------------------------------------------------------
  // The reader

  /** `,`, `;` or a tab. */
  predicate IsDelimiter(c: char) { c == ',' || c == ';' || c == '\t' }

  datatype ParsedData = ParsedData(headers: seq<string>, rows: seq<seq<string>>, totalRows: nat)

  /** The cells of a line, from a point where `current` has been collected. */
  function Scan(rest: string, delimiter: char, current: string, inQuotes: bool): seq<string> {
    if rest == "" then [Trim(current)]
    else if rest[0] == '"' && !inQuotes then Scan(rest[1..], delimiter, current, true)
    else if rest[0] == '"' then
      if |rest| > 1 && rest[1] == '"' then Scan(rest[2..], delimiter, current + "\"", true)
      else Scan(rest[1..], delimiter, current, false)
    else if rest[0] == delimiter && !inQuotes then [Trim(current)] + Scan(rest[1..], delimiter, "", false)
    else Scan(rest[1..], delimiter, current + [rest[0]], inQuotes)
  }

  function Cells(line: string, delimiter: char): seq<string> {
    Scan(line, delimiter, "", false)
  }

  lemma ScanAt(line: string, i: nat, delimiter: char, current: string, inQuotes: bool)
    requires i < |line|
    ensures Scan(line[i..], delimiter, current, inQuotes) ==
      if line[i] == '"' && !inQuotes then Scan(line[i + 1..], delimiter, current, true)
      else if line[i] == '"' then
        if i + 1 < |line| && line[i + 1] == '"' then Scan(line[i + 2..], delimiter, current + "\"", true)
        else Scan(line[i + 1..], delimiter, current, false)
      else if line[i] == delimiter && !inQuotes then [Trim(current)] + Scan(line[i + 1..], delimiter, "", false)
      else Scan(line[i + 1..], delimiter, current + [line[i]], inQuotes)
  {
    var rest := line[i..];
    assert rest[0] == line[i] && rest[1..] == line[i + 1..];
    if i + 1 < |line| {
      assert rest[1] == line[i + 1] && rest[2..] == line[i + 2..];
    }
  }

  /** `parseLine` */
  method ParseLine(line: string, delimiter: char) returns (result: seq<string>)
    ensures result == Cells(line, delimiter)
  {
    result := [];
    var current, inQuotes := "", false;
    var i := 0;
    ghost var cells := Cells(line, delimiter);
    assert line[0..] == line;
    while i < |line|
      invariant 0 <= i <= |line|
      invariant result + Scan(line[i..], delimiter, current, inQuotes) == cells
      decreases |line| - i
    {
      var ch := line[i];
      ScanAt(line, i, delimiter, current, inQuotes);
      if ch == '"' && !inQuotes {
        inQuotes := true;
      } else if ch == '"' && inQuotes {
        if i + 1 < |line| && line[i + 1] == '"' {
          current := current + "\"";
          i := i + 1;
        } else {
          inQuotes := false;
        }
      } else if ch == delimiter && !inQuotes {
        Assoc(result, [Trim(current)], Scan(line[i + 1..], delimiter, "", false));
        result := result + [Trim(current)];
        current := "";
      } else {
        current := current + [ch];
      }
      i := i + 1;
    }
    assert line[i..] == "";
    result := result + [Trim(current)];
  }

  predicate NotLineFeed(c: char) { c != '\n' }

  function DropCarriageReturn(line: string): string {
    if line != "" && line[|line| - 1] == '\r' then line[..|line| - 1] else line
  }

  /** `text.split(/\r?\n/)` */
  function SplitLines(text: string): seq<string> {
    var k := RunLength(text, NotLineFeed);
    if k == |text| then [text] else [DropCarriageReturn(text[..k])] + SplitLines(text[k + 1..])
  }

  predicate Blank(line: string) { Trim(line) == "" }

  /** `xs.filter(keep).map(f)` */
  function FilterMap<T, R>(xs: seq<T>, keep: T -> bool, f: T -> R): seq<R> {
    if xs == [] then [] else (if keep(xs[0]) then [f(xs[0])] else []) + FilterMap(xs[1..], keep, f)
  }

  lemma FilterMapCons<T, R>(x: T, xs: seq<T>, keep: T -> bool, f: T -> R)
    ensures FilterMap([x] + xs, keep, f) == (if keep(x) then [f(x)] else []) + FilterMap(xs, keep, f)
  {
    assert ([x] + xs)[1..] == xs;
  }

  lemma {:induction false} FilterMapAll<T, R>(xs: seq<T>, keep: T -> bool, f: T -> R)
    ensures |FilterMap(xs, keep, f)| <= |xs|
    ensures if forall i | 0 <= i < |xs| :: keep(xs[i])
            then FilterMap(xs, keep, f) == seq(|xs|, i requires 0 <= i < |xs| => f(xs[i]))
            else |FilterMap(xs, keep, f)| < |xs|
  {
    if xs != [] {
      FilterMapAll(xs[1..], keep, f);
      assert forall i | 1 <= i < |xs| :: xs[i] == xs[1..][i - 1];
      assert forall i | 0 <= i < |xs| - 1 :: xs[1..][i] == xs[i + 1];
    }
  }

  lemma {:induction false} FilterMapFrom<T, R>(xs: seq<T>, keep: T -> bool, f: T -> R)
    ensures forall y <- FilterMap(xs, keep, f) :: exists x <- xs :: y == f(x)
  {
    if xs != [] {
      FilterMapFrom(xs[1..], keep, f);
      assert forall x <- xs[1..] :: x in xs;
      assert xs[0] in xs;
    }
  }

  function ParseLines(lines: seq<string>, delimiter: char): seq<seq<string>> {
    FilterMap(lines, line => !Blank(line), line => Cells(line, delimiter))
  }

  /** Every row of the file, the header included. */
  function ParseRows(text: string, delimiter: char): seq<seq<string>> {
    ParseLines(SplitLines(text), delimiter)
  }

  function ParseCsv(text: string, firstRowIsHeader: bool, delimiter: char): ParsedData {
    Tabled(ParseRows(text, delimiter), firstRowIsHeader)
  }

  function Tabled(rows: seq<seq<string>>, firstRowIsHeader: bool): ParsedData {
    if rows == [] then ParsedData([], [], 0)
    else if firstRowIsHeader then ParsedData(rows[0], rows[1..], |rows| - 1)
    else ParsedData(seq(|rows[0]|, i requires 0 <= i < |rows[0]| => ColumnName(i)), rows, |rows|)
  }

  function ColumnName(i: nat): string {
    "column_" + Decimal(i + 1)
  }

  // ---------------------------------------------------------------------------
  // A writer: section 2 of RFC 4180, with a free choice of what else to quote

  datatype Cell = Cell(text: string, quoted: bool)

  predicate MayWrite(c: Cell, delimiter: char) {
    c.quoted || ('"' !in c.text && delimiter !in c.text)
  }

  function PrintCell(c: Cell): string {
    if c.quoted then "\"" + ReplaceAll(c.text, '"', "\"\"") + "\"" else c.text
  }

  function PrintRow(row: seq<Cell>, delimiter: char): string {
    if row == [] then ""
    else if |row| == 1 then PrintCell(row[0])
    else PrintCell(row[0]) + ([delimiter] + PrintRow(row[1..], delimiter))
  }

  function LineEnd(crlf: bool): string {
    if crlf then "\r\n" else "\n"
  }

  /** Rows with a line end after each; after the last one only if `terminated`. */
  function PrintFile(rows: seq<seq<Cell>>, delimiter: char, crlf: bool, terminated: bool): string {
    if rows == [] then ""
    else if |rows| == 1 && !terminated then PrintRow(rows[0], delimiter)
    else PrintRow(rows[0], delimiter) + (LineEnd(crlf) + PrintFile(rows[1..], delimiter, crlf, terminated))
  }

  function Texts(row: seq<Cell>): seq<string> {
    seq(|row|, i requires 0 <= i < |row| => row[i].text)
  }

  function AllTexts(rows: seq<seq<Cell>>): seq<seq<string>> {
    seq(|rows|, i requires 0 <= i < |rows| => Texts(rows[i]))
  }

  // ---------------------------------------------------------------------------
  // A printed row reads back as its trimmed cells

  function TrimmedTexts(row: seq<Cell>): seq<string> {
    seq(|row|, i requires 0 <= i < |row| => Trim(row[i].text))
  }

  lemma {:induction false} ScanPlain(text: string, rest: string, delimiter: char, current: string)
    requires '"' !in text && delimiter !in text
    ensures Scan(text + rest, delimiter, current, false) == Scan(rest, delimiter, current + text, false)
  {
    if text == "" {
      assert text + rest == rest && current + text == current;
    } else {
      var whole := text + rest;
      assert whole[0] == text[0] && whole[1..] == text[1..] + rest;
      ScanPlain(text[1..], rest, delimiter, current + [text[0]]);
      assert current + [text[0]] + text[1..] == current + text;
    }
  }

  /** Inside quotes one character is collected, a quote from two. */
  lemma ScanChar(c: char, tail: string, delimiter: char, current: string)
    ensures Scan((if c == '"' then "\"\"" else [c]) + tail, delimiter, current, true)
         == Scan(tail, delimiter, current + [c], true)
  {
    var head := if c == '"' then "\"\"" else [c];
    var whole := head + tail;
    assert whole[0] == c && (c == '"' ==> whole[1] == c);
    assert whole[|head|..] == tail;
    assert c == '"' ==> current + "\"" == current + [c];
  }

  lemma {:induction false} ScanQuoted(text: string, rest: string, delimiter: char, current: string)
    requires rest == "" || rest[0] != '"'
    ensures Scan(ReplaceAll(text, '"', "\"\"") + ("\"" + rest), delimiter, current, true)
         == Scan(rest, delimiter, current + text, false)
  {
    var end := "\"" + rest;
    var whole := ReplaceAll(text, '"', "\"\"") + end;
    if text == "" {
      assert whole == end && end[1..] == rest && current + text == current;
    } else {
      var head := if text[0] == '"' then "\"\"" else [text[0]];
      var tail := ReplaceAll(text[1..], '"', "\"\"") + end;
      Assoc(head, ReplaceAll(text[1..], '"', "\"\""), end);
      ScanChar(text[0], tail, delimiter, current);
      ScanQuoted(text[1..], rest, delimiter, current + [text[0]]);
      Assoc(current, [text[0]], text[1..]);
      assert [text[0]] + text[1..] == text;
    }
  }

  lemma ScanCell(c: Cell, rest: string, delimiter: char)
    requires MayWrite(c, delimiter) && (rest == "" || rest[0] != '"')
    ensures Scan(PrintCell(c) + rest, delimiter, "", false) == Scan(rest, delimiter, c.text, false)
  {
    if c.quoted {
      var inner := ReplaceAll(c.text, '"', "\"\"") + ("\"" + rest);
      ScanQuoted(c.text, rest, delimiter, "");
      var body := ReplaceAll(c.text, '"', "\"\"");
      Assoc("\"", body, "\"");
      Assoc("\"", body + "\"", rest);
      Assoc(body, "\"", rest);
      assert PrintCell(c) + rest == "\"" + inner;
      assert ("\"" + inner)[1..] == inner && "" + c.text == c.text;
    } else {
      ScanPlain(c.text, rest, delimiter, "");
      assert "" + c.text == c.text;
    }
  }

  lemma ScanLastCell(c: Cell, delimiter: char)
    requires MayWrite(c, delimiter)
    ensures Cells(PrintCell(c), delimiter) == [Trim(c.text)]
  {
    ScanCell(c, "", delimiter);
    Assoc(PrintCell(c), "", "");
  }

  lemma ScanDelimiter(rest: string, delimiter: char, current: string)
    requires IsDelimiter(delimiter)
    ensures Scan([delimiter] + rest, delimiter, current, false) == [Trim(current)] + Cells(rest, delimiter)
  {
    assert ([delimiter] + rest)[1..] == rest;
  }

  /** Whatever its cells hold, a printed row is scanned as exactly its cells, each trimmed. */
  lemma {:induction false} RowReadsBack(row: seq<Cell>, delimiter: char)
    requires IsDelimiter(delimiter) && row != [] && forall c <- row :: MayWrite(c, delimiter)
    ensures Cells(PrintRow(row, delimiter), delimiter) == TrimmedTexts(row)
  {
    if |row| == 1 {
      ScanLastCell(row[0], delimiter);
    } else {
      var rest := [delimiter] + PrintRow(row[1..], delimiter);
      ScanCell(row[0], rest, delimiter);
      RowReadsBack(row[1..], delimiter);
      ScanDelimiter(PrintRow(row[1..], delimiter), delimiter, row[0].text);
      TrimmedTextsCons(row);
    }
  }

  lemma TrimmedTextsCons(row: seq<Cell>)
    requires row != []
    ensures TrimmedTexts(row) == [Trim(row[0].text)] + TrimmedTexts(row[1..])
  {
    var tail := row[1..];
    assert forall i | 0 <= i < |tail| :: tail[i] == row[i + 1];
    assert TrimmedTexts(row)[1..] == TrimmedTexts(tail);
  }

  // ---------------------------------------------------------------------------
  // Trimming

  lemma {:induction false} TrimStartSpaceEnd(s: string, c: char)
    requires IsSpace(c)
    ensures TrimStart(s + [c]) == if TrimStart(s) == "" then "" else TrimStart(s) + [c]
  {
    if s == "" {
      assert s + [c] == [c] && [c][1..] == "";
    } else if IsSpace(s[0]) {
      assert (s + [c])[1..] == s[1..] + [c];
      TrimStartSpaceEnd(s[1..], c);
    }
  }

  lemma TrimSpaceEnd(s: string, c: char)
    requires IsSpace(c)
    ensures Trim(s + [c]) == Trim(s)
  {
    TrimStartSpaceEnd(s, c);
    var t := TrimStart(s);
    if t != "" {
      assert (t + [c])[..|t|] == t;
    }
  }

  lemma TrimTwice(s: string)
    ensures Trim(Trim(s)) == Trim(s)
  {
    var t := Trim(s);
    if t != "" {
      assert t[0] == TrimStart(s)[0];
      assert TrimStart(t) == t && TrimEnd(t) == t;
    }
  }

  // ---------------------------------------------------------------------------
  // Lines

  /** A carriage return at the end of a line is white space to the reader, quoted or not. */
  lemma {:induction false} ScanCarriageReturn(rest: string, delimiter: char, current: string, inQuotes: bool)
    requires IsDelimiter(delimiter)
    ensures Scan(rest + "\r", delimiter, current, inQuotes) == Scan(rest, delimiter, current, inQuotes)
    decreases |rest|
  {
    var whole := rest + "\r";
    if rest == "" {
      assert whole == "\r" && whole[1..] == "";
      assert Scan(whole, delimiter, current, inQuotes) == [Trim(current + "\r")];
      TrimSpaceEnd(current, '\r');
    } else {
      assert whole[0] == rest[0] && whole[1..] == rest[1..] + "\r";
      if rest[0] == '"' && !inQuotes {
        ScanCarriageReturn(rest[1..], delimiter, current, true);
      } else if rest[0] == '"' {
        if |rest| > 1 && rest[1] == '"' {
          assert whole[2..] == rest[2..] + "\r";
          ScanCarriageReturn(rest[2..], delimiter, current + "\"", true);
        } else {
          ScanCarriageReturn(rest[1..], delimiter, current, false);
        }
      } else if rest[0] == delimiter && !inQuotes {
        ScanCarriageReturn(rest[1..], delimiter, "", false);
      } else {
        ScanCarriageReturn(rest[1..], delimiter, current + [rest[0]], inQuotes);
      }
    }
  }

  lemma CarriageReturnIsHarmless(line: string, delimiter: char)
    requires IsDelimiter(delimiter)
    ensures Cells(DropCarriageReturn(line), delimiter) == Cells(line, delimiter)
    ensures Blank(DropCarriageReturn(line)) <==> Blank(line)
  {
    var short := DropCarriageReturn(line);
    if short != line {
      assert line == short + "\r";
      ScanCarriageReturn(short, delimiter, "", false);
      TrimSpaceEnd(short, '\r');
    }
  }

  lemma SplitAtFeed(before: string, rest: string)
    requires '\n' !in before
    ensures SplitLines(before + ("\n" + rest)) == [DropCarriageReturn(before)] + SplitLines(rest)
  {
    var text := before + ("\n" + rest);
    RunLengthOf(before, "\n" + rest, NotLineFeed);
    assert text[..|before|] == before && text[|before| + 1..] == rest;
  }

  lemma SplitAtLine(line: string, crlf: bool, rest: string)
    requires '\n' !in line
    ensures SplitLines(line + (LineEnd(crlf) + rest))
         == [if crlf then line else DropCarriageReturn(line)] + SplitLines(rest)
  {
    if crlf {
      assert LineEnd(true) + rest == "\r" + ("\n" + rest);
      Assoc(line, "\r", "\n" + rest);
      SplitAtFeed(line + "\r", rest);
      assert (line + "\r")[..|line|] == line;
    } else {
      SplitAtFeed(line, rest);
    }
  }

  lemma SplitLastLine(line: string)
    requires '\n' !in line
    ensures SplitLines(line) == [line]
  {
    RunLengthOf(line, "", NotLineFeed);
    assert line + "" == line;
  }

  lemma {:induction false} ReplaceKeepsOut(text: string, c: char, sub: string, bad: char)
    requires bad !in text && bad !in sub
    ensures bad !in ReplaceAll(text, c, sub)
  {
    if text != "" {
      ReplaceKeepsOut(text[1..], c, sub, bad);
    }
  }

  predicate LineFeedFree(row: seq<Cell>) {
    forall c <- row :: '\n' !in c.text
  }

  lemma {:induction false} RowIsOneLine(row: seq<Cell>, delimiter: char)
    requires IsDelimiter(delimiter) && LineFeedFree(row)
    ensures '\n' !in PrintRow(row, delimiter)
  {
    if row != [] {
      ReplaceKeepsOut(row[0].text, '"', "\"\"", '\n');
      RowIsOneLine(row[1..], delimiter);
    }
  }

  // ---------------------------------------------------------------------------
  // Whole files

  ghost predicate Writable(rows: seq<seq<Cell>>, delimiter: char) {
    IsDelimiter(delimiter) && forall row <- rows :: forall c <- row :: MayWrite(c, delimiter)
  }

  /** What the reader makes of printed rows: trimmed cells, without the rows printed blank. */
  function Kept(rows: seq<seq<Cell>>, delimiter: char): seq<seq<string>> {
    FilterMap(rows, row => !Blank(PrintRow(row, delimiter)), row => TrimmedTexts(row))
  }

  lemma LineIsKept(row: seq<Cell>, line: string, more: seq<string>, delimiter: char)
    requires IsDelimiter(delimiter) && forall c <- row :: MayWrite(c, delimiter)
    requires line == PrintRow(row, delimiter) || line == DropCarriageReturn(PrintRow(row, delimiter))
    ensures ParseLines([line] + more, delimiter)
         == (if Blank(PrintRow(row, delimiter)) then [] else [TrimmedTexts(row)]) + ParseLines(more, delimiter)
  {
    FilterMapCons(line, more, line => !Blank(line), line => Cells(line, delimiter));
    CarriageReturnIsHarmless(PrintRow(row, delimiter), delimiter);
    if !Blank(line) {
      RowReadsBack(row, delimiter);
    }
  }

  lemma KeptCons(row: seq<Cell>, rows: seq<seq<Cell>>, delimiter: char)
    ensures Kept([row] + rows, delimiter)
         == (if Blank(PrintRow(row, delimiter)) then [] else [TrimmedTexts(row)]) + Kept(rows, delimiter)
  {
    FilterMapCons(row, rows, row => !Blank(PrintRow(row, delimiter)), row => TrimmedTexts(row));
  }

  lemma {:induction false} FileReadsBack(rows: seq<seq<Cell>>, delimiter: char, crlf: bool, terminated: bool)
    requires Writable(rows, delimiter) && forall row <- rows :: LineFeedFree(row)
    ensures ParseRows(PrintFile(rows, delimiter, crlf, terminated), delimiter) == Kept(rows, delimiter)
  {
    if rows == [] {
      SplitLastLine("");
      FilterMapCons("", [], line => !Blank(line), line => Cells(line, delimiter));
      assert [""] + [] == [""];
    } else {
      var first, more := rows[0], rows[1..];
      assert rows == [first] + more;
      assert forall row <- more :: row in rows;
      RowIsOneLine(first, delimiter);
      if |rows| == 1 && !terminated {
        LastRowReadsBack(first, delimiter);
        assert rows == [first];
      } else {
        FileReadsBack(more, delimiter, crlf, terminated);
        FirstRowReadsBack(first, PrintFile(more, delimiter, crlf, terminated), delimiter, crlf);
        KeptCons(first, more, delimiter);
      }
    }
  }

  lemma LastRowReadsBack(row: seq<Cell>, delimiter: char)
    requires IsDelimiter(delimiter) && '\n' !in PrintRow(row, delimiter) && forall c <- row :: MayWrite(c, delimiter)
    ensures ParseRows(PrintRow(row, delimiter), delimiter) == Kept([row], delimiter)
  {
    var line := PrintRow(row, delimiter);
    SplitLastLine(line);
    LineIsKept(row, line, [], delimiter);
    KeptCons(row, [], delimiter);
    assert [line] + [] == [line] && [row] + [] == [row];
  }

  lemma FirstRowReadsBack(row: seq<Cell>, rest: string, delimiter: char, crlf: bool)
    requires IsDelimiter(delimiter) && '\n' !in PrintRow(row, delimiter) && forall c <- row :: MayWrite(c, delimiter)
    ensures ParseRows(PrintRow(row, delimiter) + (LineEnd(crlf) + rest), delimiter)
         == (if Blank(PrintRow(row, delimiter)) then [] else [TrimmedTexts(row)]) + ParseRows(rest, delimiter)
  {
    var line := PrintRow(row, delimiter);
    SplitAtLine(line, crlf, rest);
    LineIsKept(row, if crlf then line else DropCarriageReturn(line), SplitLines(rest), delimiter);
  }

  // ---------------------------------------------------------------------------
  // Exactly which files survive

  /** No cell the reader answers holds a line feed, and each equals its own trim. */
  predicate Readable(text: string) { '\n' !in text && Trim(text) == text }

  ghost predicate ReadableCells(cells: seq<string>) {
    forall cell <- cells :: Readable(cell)
  }

  lemma OneMoreReadable(cell: string, cells: seq<string>)
    requires Readable(cell) && ReadableCells(cells)
    ensures ReadableCells([cell] + cells)
  {
  }

  lemma TrimIsReadable(s: string)
    requires '\n' !in s
    ensures Readable(Trim(s))
  {
    TrimTwice(s);
    var t := TrimStart(s);
    assert forall c <- t :: c in s;
    assert forall c <- TrimEnd(t) :: c in t;
  }

  lemma {:induction false} ScanIsReadable(rest: string, delimiter: char, current: string, inQuotes: bool)
    requires '\n' !in rest && '\n' !in current
    ensures ReadableCells(Scan(rest, delimiter, current, inQuotes))
    decreases |rest|
  {
    if rest == "" {
      TrimIsReadable(current);
    } else {
      var tail := rest[1..];
      assert rest == [rest[0]] + tail;
      if rest[0] == '"' && !inQuotes {
        ScanIsReadable(tail, delimiter, current, true);
      } else if rest[0] == '"' {
        if |rest| > 1 && rest[1] == '"' {
          assert rest[2..] == tail[1..] && tail == [tail[0]] + tail[1..];
          ScanIsReadable(rest[2..], delimiter, current + "\"", true);
        } else {
          ScanIsReadable(tail, delimiter, current, false);
        }
      } else if rest[0] == delimiter && !inQuotes {
        TrimIsReadable(current);
        ScanIsReadable(tail, delimiter, "", false);
        OneMoreReadable(Trim(current), Scan(tail, delimiter, "", false));
      } else {
        ScanIsReadable(tail, delimiter, current + [rest[0]], inQuotes);
      }
    }
  }

  lemma {:induction false} LinesHaveNoLineFeed(text: string)
    ensures forall line <- SplitLines(text) :: '\n' !in line
    decreases |text|
  {
    var k := RunLength(text, NotLineFeed);
    if k < |text| {
      LinesHaveNoLineFeed(text[k + 1..]);
      assert forall i | 0 <= i < k :: text[i] != '\n';
    }
  }

  lemma ParsedIsReadable(text: string, delimiter: char)
    ensures forall row <- ParseRows(text, delimiter) :: forall cell <- row :: Readable(cell)
  {
    LinesHaveNoLineFeed(text);
    FilterMapFrom(SplitLines(text), line => !Blank(line), line => Cells(line, delimiter));
    forall row | row in ParseRows(text, delimiter)
      ensures forall cell <- row :: Readable(cell)
    {
      var line :| line in SplitLines(text) && row == Cells(line, delimiter);
      ScanIsReadable(line, delimiter, "", false);
    }
  }

  ghost predicate AllReadable(rows: seq<seq<Cell>>) {
    forall row <- rows :: forall c <- row :: Readable(c.text)
  }

  ghost predicate NoneBlank(rows: seq<seq<Cell>>, delimiter: char) {
    forall i | 0 <= i < |rows| :: !Blank(PrintRow(rows[i], delimiter))
  }

  lemma ReadableIsTrimmed(row: seq<Cell>)
    requires forall c <- row :: Readable(c.text)
    ensures TrimmedTexts(row) == Texts(row)
  {
    assert forall k | 0 <= k < |row| :: row[k] in row;
  }

  lemma KeptAll(rows: seq<seq<Cell>>, delimiter: char)
    requires AllReadable(rows)
    ensures Kept(rows, delimiter) == AllTexts(rows) <==> NoneBlank(rows, delimiter)
  {
    FilterMapAll(rows, row => !Blank(PrintRow(row, delimiter)), row => TrimmedTexts(row));
    if NoneBlank(rows, delimiter) {
      forall i | 0 <= i < |rows|
        ensures Kept(rows, delimiter)[i] == Texts(rows[i])
      {
        assert rows[i] in rows;
        ReadableIsTrimmed(rows[i]);
      }
    } else {
      assert |Kept(rows, delimiter)| < |rows| == |AllTexts(rows)|;
    }
  }

  /**
   A printed file reads back as its own rows if and only if every cell is free of line feeds
   and equal to its own trim, and no row is printed as a blank line. This is so for each
   delimiter, either line end, and every choice of cells to quote beyond those that hold a
   quote or the delimiter.
   */
  lemma RoundTripIff(rows: seq<seq<Cell>>, delimiter: char, crlf: bool, terminated: bool)
    requires Writable(rows, delimiter)
    ensures ParseRows(PrintFile(rows, delimiter, crlf, terminated), delimiter) == AllTexts(rows)
       <==> AllReadable(rows) && NoneBlank(rows, delimiter)
  {
    var parsed := ParseRows(PrintFile(rows, delimiter, crlf, terminated), delimiter);
    if AllReadable(rows) {
      FileReadsBack(rows, delimiter, crlf, terminated);
      KeptAll(rows, delimiter);
    } else if parsed == AllTexts(rows) {
      ParsedIsReadable(PrintFile(rows, delimiter, crlf, terminated), delimiter);
      forall row, c | row in rows && c in row
        ensures Readable(c.text)
      {
        var i :| 0 <= i < |rows| && rows[i] == row;
        var k :| 0 <= k < |row| && row[k] == c;
        assert parsed[i] in parsed && parsed[i][k] == c.text;
      }
      assert false;
    }
  }

  lemma ColumnNamesDiffer(i: nat, j: nat)
    requires i != j
    ensures ColumnName(i) != ColumnName(j)
  {
    DecimalReadsBack(i + 1);
    DecimalReadsBack(j + 1);
    assert ColumnName(i)[7..] == Decimal(i + 1) && ColumnName(j)[7..] == Decimal(j + 1);
  }

  /** With the header taken from the first row, or with generated names. */
  lemma CsvRoundTrip(rows: seq<seq<Cell>>, delimiter: char, crlf: bool, terminated: bool, firstRowIsHeader: bool)
    requires Writable(rows, delimiter) && AllReadable(rows) && rows != []
    requires NoneBlank(rows, delimiter)
    ensures
      var data := ParseCsv(PrintFile(rows, delimiter, crlf, terminated), firstRowIsHeader, delimiter);
      && |data.headers| == |rows[0]|
      && data.totalRows == |data.rows|
      && if firstRowIsHeader then [data.headers] + data.rows == AllTexts(rows)
         else
           && data.rows == AllTexts(rows)
           && (forall i | 0 <= i < |data.headers| :: data.headers[i] == "column_" + Decimal(i + 1))
           && forall i, j | 0 <= i < j < |data.headers| :: data.headers[i] != data.headers[j]
  {
    RoundTripIff(rows, delimiter, crlf, terminated);
    HeaderOf(PrintFile(rows, delimiter, crlf, terminated), firstRowIsHeader, delimiter, AllTexts(rows));
  }

  lemma HeaderOf(text: string, firstRowIsHeader: bool, delimiter: char, rows: seq<seq<string>>)
    requires ParseRows(text, delimiter) == rows != []
    ensures
      var data := ParseCsv(text, firstRowIsHeader, delimiter);
      && |data.headers| == |rows[0]|
      && data.totalRows == |data.rows|
      && if firstRowIsHeader then [data.headers] + data.rows == rows
         else
           && data.rows == rows
           && (forall i | 0 <= i < |data.headers| :: data.headers[i] == "column_" + Decimal(i + 1))
           && forall i, j | 0 <= i < j < |data.headers| :: data.headers[i] != data.headers[j]
  {
    forall i, j | 0 <= i < j < |rows[0]|
      ensures ColumnName(i) != ColumnName(j)
    {
      ColumnNamesDiffer(i, j);
    }
  }

  lemma {:induction false} FilterMapNone<T, R>(xs: seq<T>, keep: T -> bool, f: T -> R)
    ensures FilterMap(xs, keep, f) == [] <==> forall i | 0 <= i < |xs| :: !keep(xs[i])
  {
    if xs != [] {
      FilterMapNone(xs[1..], keep, f);
      assert forall i | 1 <= i < |xs| :: xs[i] == xs[1..][i - 1];
      assert forall i | 0 <= i < |xs| - 1 :: xs[1..][i] == xs[i + 1];
    }
  }

  lemma NothingParsedIff(lines: seq<string>, delimiter: char)
    ensures ParseLines(lines, delimiter) == [] <==> forall i | 0 <= i < |lines| :: Blank(lines[i])
  {
    FilterMapNone(lines, line => !Blank(line), line => Cells(line, delimiter));
  }

  lemma EmptyLinesIff(lines: seq<string>, firstRowIsHeader: bool, delimiter: char)
    ensures Tabled(ParseLines(lines, delimiter), firstRowIsHeader) == ParsedData([], [], 0)
            <==> forall i | 0 <= i < |lines| :: Blank(lines[i])
  {
    NothingParsedIff(lines, delimiter);
    RowsHaveCells(lines, delimiter);
    EmptyIff(ParseLines(lines, delimiter), firstRowIsHeader);
  }

  /** A file is empty to the reader, without headers or rows, exactly where every line is blank. */
  lemma EmptyFileIff(text: string, lines: seq<string>, firstRowIsHeader: bool, delimiter: char)
    requires lines == SplitLines(text)
    ensures ParseCsv(text, firstRowIsHeader, delimiter) == ParsedData([], [], 0)
            <==> forall i | 0 <= i < |lines| :: Blank(lines[i])
  {
    EmptyLinesIff(lines, firstRowIsHeader, delimiter);
  }

  lemma EmptyIff(rows: seq<seq<string>>, firstRowIsHeader: bool)
    requires forall row <- rows :: row != []
    ensures Tabled(rows, firstRowIsHeader) == ParsedData([], [], 0) <==> rows == []
  {
    if rows != [] {
      assert rows[0] in rows && |Tabled(rows, firstRowIsHeader).headers| == |rows[0]|;
    }
  }

  lemma RowsHaveCells(lines: seq<string>, delimiter: char)
    ensures forall row <- ParseLines(lines, delimiter) :: row != []
  {
    FilterMapFrom(lines, line => !Blank(line), line => Cells(line, delimiter));
    forall line ensures Cells(line, delimiter) != [] { ScanHasCells(line, delimiter, "", false); }
  }

  lemma {:induction false} ScanHasCells(rest: string, delimiter: char, current: string, inQuotes: bool)
    ensures Scan(rest, delimiter, current, inQuotes) != []
    decreases |rest|
  {
    if rest != "" && rest[0] == '"' {
      if !inQuotes { ScanHasCells(rest[1..], delimiter, current, true); }
      else if |rest| > 1 && rest[1] == '"' { ScanHasCells(rest[2..], delimiter, current + "\"", true); }
      else { ScanHasCells(rest[1..], delimiter, current, false); }
    } else if rest != "" && !(rest[0] == delimiter && !inQuotes) {
      ScanHasCells(rest[1..], delimiter, current + [rest[0]], inQuotes);
    }
  }
}
