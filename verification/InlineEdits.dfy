/**
 Inline editing of a result grid (`use-inline-editing`): the list of pending changes, and
 the UPDATE statements they are compiled to.
 */
module InlineEdits {
  import opened Options
  import opened Strings
  import opened SqlText

  predicate IsNumberChar(c: char) {
    || IsDigit(c) || c == '+' || c == '-' || c == '.' || c == 'e'
    || c == 'N' || c == 'a' || c == 'I' || c == 'n' || c == 'f' || c == 'i' || c == 't' || c == 'y'
  }

  /** What `String(n)` can answer for a number. */
  type NumText = s: string | s != "" && forall c <- s :: IsNumberChar(c) witness "0"

  datatype Val = Null | Num(text: NumText) | Text(value: string)

  type Row = map<string, Val>

  /** `originalValue` is its text; null and undefined are `None`. */
  datatype CellChange = CellChange(rowIndex: nat, columnId: string, originalValue: Option<string>, newValue: string)
  {
    function Cell(): (nat, string) { (rowIndex, columnId) }

    /** `String(originalValue ?? "")` */
    function Original(): (text: string)
      ensures originalValue == Some(text) || (originalValue == None && text == "")
    {
      if originalValue.Some? then originalValue.value else ""
    }

    predicate Real() {
      Original() != newValue
    }

    predicate MeansNull() {
      newValue == "" || Upper(newValue) == "NULL"
    }

    /** The value the table holds once the change is applied. */
    function Stored(): Val {
      if MeansNull() then Null else Text(newValue)
    }
  }

  // ---------------------------------------------------------------------------
  // The pending list

  function FindCell(list: seq<CellChange>, cell: (nat, string)): (i: nat)
    ensures i <= |list|
    ensures i < |list| ==> list[i].Cell() == cell
    ensures forall k | 0 <= k < i :: list[k].Cell() != cell
  {
    if list == [] then 0 else if list[0].Cell() == cell then 0 else 1 + FindCell(list[1..], cell)
  }

  /** The updater of `handleCellChange`. */
  function Edited(prev: seq<CellChange>, change: CellChange): seq<CellChange> {
    var existing := FindCell(prev, change.Cell());
    if existing < |prev| then
      if !change.Real() then prev[..existing] + prev[existing + 1..] else prev[existing := change]
    else if !change.Real() then prev
    else prev + [change]
  }

  function Pending(history: seq<CellChange>): seq<CellChange> {
    if history == [] then []
    else Edited(Pending(history[..|history| - 1]), history[|history| - 1])
  }

  ghost predicate UniqueCells(list: seq<CellChange>) {
    forall i, j | 0 <= i < j < |list| :: list[i].Cell() != list[j].Cell()
  }

  function Lookup(list: seq<CellChange>, cell: (nat, string)): Option<CellChange> {
    var i := FindCell(list, cell);
    if i < |list| then Some(list[i]) else None
  }

  /** The last edit the user made of a cell. */
  function LastEdit(history: seq<CellChange>, cell: (nat, string)): Option<CellChange> {
    if history == [] then None
    else if history[|history| - 1].Cell() == cell then Some(history[|history| - 1])
    else LastEdit(history[..|history| - 1], cell)
  }

  lemma LookupAt(list: seq<CellChange>, i: nat)
    requires UniqueCells(list) && i < |list|
    ensures FindCell(list, list[i].Cell()) == i
  {
  }

  lemma NotFound(list: seq<CellChange>, cell: (nat, string))
    requires forall k | 0 <= k < |list| :: list[k].Cell() != cell
    ensures Lookup(list, cell) == None
  {
  }

  lemma DroppedIsUnique(prev: seq<CellChange>, e: nat)
    requires UniqueCells(prev) && e < |prev|
    ensures
      var next := prev[..e] + prev[e + 1..];
      UniqueCells(next) && forall k | 0 <= k < |next| :: next[k] == if k < e then prev[k] else prev[k + 1]
  {
  }

  lemma DroppedAt(prev: seq<CellChange>, e: nat, cell: (nat, string))
    requires UniqueCells(prev) && e < |prev|
    ensures
      var next := prev[..e] + prev[e + 1..];
      UniqueCells(next) && Lookup(next, cell) == if cell == prev[e].Cell() then None else Lookup(prev, cell)
  {
    var next := prev[..e] + prev[e + 1..];
    DroppedIsUnique(prev, e);
    var i := FindCell(prev, cell);
    LookupAt(prev, e);
    if i < |prev| && i != e {
      LookupAt(next, if i < e then i else i - 1);
    } else {
      forall k | 0 <= k < |next| ensures next[k].Cell() != cell {
        var m := if k < e then k else k + 1;
        assert next[k] == prev[m] && prev[m].Cell() != cell;
      }
      NotFound(next, cell);
    }
  }

  lemma ReplacedAt(prev: seq<CellChange>, e: nat, change: CellChange, cell: (nat, string))
    requires UniqueCells(prev) && e < |prev| && prev[e].Cell() == change.Cell()
    ensures
      var next := prev[e := change];
      UniqueCells(next) && Lookup(next, cell) == if cell == change.Cell() then Some(change) else Lookup(prev, cell)
  {
    var next := prev[e := change];
    assert forall k | 0 <= k < |next| :: next[k].Cell() == prev[k].Cell();
    var i := FindCell(prev, cell);
    if i < |prev| {
      LookupAt(next, i);
      LookupAt(prev, e);
    } else {
      NotFound(next, cell);
    }
  }

  lemma AppendedAt(prev: seq<CellChange>, change: CellChange, cell: (nat, string))
    requires UniqueCells(prev) && FindCell(prev, change.Cell()) == |prev|
    ensures
      var next := prev + [change];
      UniqueCells(next) && Lookup(next, cell) == if cell == change.Cell() then Some(change) else Lookup(prev, cell)
  {
    var next := prev + [change];
    var i := FindCell(prev, cell);
    if i < |prev| {
      LookupAt(next, i);
    } else if cell == change.Cell() {
      LookupAt(next, |prev|);
    } else {
      NotFound(next, cell);
    }
  }

  lemma EditedAt(prev: seq<CellChange>, change: CellChange, cell: (nat, string))
    requires UniqueCells(prev)
    ensures UniqueCells(Edited(prev, change))
    ensures Lookup(Edited(prev, change), cell) ==
            if cell != change.Cell() then Lookup(prev, cell)
            else if change.Real() then Some(change) else None
  {
    var e := FindCell(prev, change.Cell());
    if e < |prev| {
      DroppedAt(prev, e, cell);
      ReplacedAt(prev, e, change, cell);
    } else {
      AppendedAt(prev, change, cell);
      NotFound(prev, change.Cell());
    }
  }

  lemma {:induction false} PendingIsMap(history: seq<CellChange>)
    ensures UniqueCells(Pending(history))
    ensures forall change <- Pending(history) :: change.Real()
    ensures forall cell :: Lookup(Pending(history), cell) ==
              match LastEdit(history, cell)
              case Some(edit) => if edit.Real() then Some(edit) else None
              case None => None
  {
    if history != [] {
      var before, change := history[..|history| - 1], history[|history| - 1];
      PendingIsMap(before);
      forall cell {
        EditedAt(Pending(before), change, cell);
      }
    }
  }

  /**
   After any edits the pending list is the last-write-wins map of the real changes: at most
   one entry per cell, none equal to its original, and each cell's entry its last edit.
   */
  lemma PendingIsLastWrite(history: seq<CellChange>)
    ensures UniqueCells(Pending(history))
    ensures forall change <- Pending(history) :: change.newValue != change.Original()
    ensures forall cell :: Lookup(Pending(history), cell) ==
              match LastEdit(history, cell)
              case Some(edit) => if edit.newValue != edit.Original() then Some(edit) else None
              case None => None
  {
    PendingIsMap(history);
  }

  // ---------------------------------------------------------------------------
  // Compiling

  /** `id`, or a name that ends in `_id`, in any case. */
  predicate IsKeyName(field: string): (b: bool)
    ensures b <==>
      var n := |field|;
      && n >= 2 && field[n - 2] in {'i', 'I'} && field[n - 1] in {'d', 'D'}
      && (n > 2 ==> field[n - 3] == '_')
  {
    var f := Lower(field);
    assert |f| == 2 ==> (f == "id" <==> f[0] == 'i' && f[1] == 'd');
    assert |f| >= 3 ==> (f[|f| - 3..] == "_id" <==> f[|f| - 3] == '_' && f[|f| - 2] == 'i' && f[|f| - 1] == 'd');
    f == "id" || (|f| >= 3 && f[|f| - 3..] == "_id")
  }

  /** The first field that names a key. */
  function FindKeyColumn(fields: seq<string>): (found: Option<string>)
    ensures found.None? ==> forall f <- fields :: !IsKeyName(f)
    ensures found.Some? ==>
      exists i | 0 <= i < |fields| ::
        fields[i] == found.value && IsKeyName(fields[i]) && forall j | 0 <= j < i :: !IsKeyName(fields[j])
  {
    if fields == [] then None
    else
      assert fields == [fields[0]] + fields[1..];
      if IsKeyName(fields[0]) then Some(fields[0]) else FindKeyColumn(fields[1..])
  }

  predicate IsBareStart(c: char) { 'a' <= c <= 'z' || 'A' <= c <= 'Z' || c == '_' }

  predicate IsBareChar(c: char) { IsBareStart(c) || IsDigit(c) || c == '$' }

  /** One or more names joined by dots; `start` says a name is about to begin. */
  predicate IsBareFrom(s: string, start: bool) {
    if s == "" then !start
    else if start then IsBareStart(s[0]) && IsBareFrom(s[1..], false)
    else if s[0] == '.' then IsBareFrom(s[1..], true)
    else IsBareChar(s[0]) && IsBareFrom(s[1..], false)
  }

  predicate IsBareIdentifier(name: string) { IsBareFrom(name, true) }

  /** A letter or `_` begins each name; digits and `$` may follow, or a dot before the next name. */
  predicate BareAt(s: string, start: bool, i: nat)
    requires i < |s|
  {
    var c := s[i];
    || 'a' <= c <= 'z' || 'A' <= c <= 'Z' || c == '_'
    || ((if i == 0 then !start else s[i - 1] != '.') && ('0' <= c <= '9' || c == '$' || c == '.'))
  }

  lemma {:induction false} BareFromIff(s: string, start: bool)
    ensures IsBareFrom(s, start) <==>
      if s == "" then !start else s[|s| - 1] != '.' && forall i | 0 <= i < |s| :: BareAt(s, start, i)
  {
    if s != "" {
      var rest := s[1..];
      var start' := !start && s[0] == '.';
      BareFromIff(rest, start');
      assert BareAt(s, start, 0) ==> forall i | 1 <= i < |s| :: BareAt(s, start, i) <==> BareAt(rest, start', i - 1);
      assert forall i | 0 <= i < |rest| :: BareAt(s, start, 0) ==> (BareAt(s, start, i + 1) <==> BareAt(rest, start', i));
    }
  }

  /** The names Apply accepts for a table, character by character. */
  lemma IsBareIdentifierIff(name: string)
    ensures IsBareIdentifier(name) <==>
      name != "" && name[|name| - 1] != '.' && forall i | 0 <= i < |name| :: BareAt(name, true, i)
  {
    BareFromIff(name, true);
  }

  datatype Statement = Statement(sql: string, params: seq<Val>)

  /** `emit`: a placeholder whose value joins `params`, or the value as a literal. */
  function Emit(value: Val, g: Grammar, params: seq<Val>): (string, seq<Val>)
    requires value != Null
  {
    match Placeholder(g.bind, |params| + 1)
    case Some(placeholder) => (placeholder, params + [value])
    case None => (if value.Num? then value.text else QuoteAs(value.value, g.escape), params)
  }

  function SetClause(c: CellChange, g: Grammar, params: seq<Val>): (string, seq<Val>) {
    var target := QuoteNameAs(c.columnId, g.quotes) + " = ";
    if c.MeansNull() then (target + "NULL", params)
    else
      var (text, params') := Emit(Text(c.newValue), g, params);
      (target + text, params')
  }

  function SetClauses(changes: seq<CellChange>, g: Grammar, params: seq<Val>): (seq<string>, seq<Val>) {
    if changes == [] then ([], params)
    else
      var (clause, params1) := SetClause(changes[0], g, params);
      var (clauses, params2) := SetClauses(changes[1..], g, params1);
      ([clause] + clauses, params2)
  }

  /** `typeof pkValue === "number" ? pkValue : String(pkValue)` */
  function KeyValue(row: Row, key: string): Val {
    if key !in row then Text("undefined")
    else match row[key]
      case Null => Text("null")
      case v => v
  }

  function Compile(table: string, key: string, row: Row, changes: seq<CellChange>, g: Grammar): Statement {
    var (clauses, params) := SetClauses(changes, g, []);
    var (keyText, params') := Emit(KeyValue(row, key), g, params);
    Statement("UPDATE " + (table + (" SET " + (Join(clauses, ", ") + WhereText(key, g, keyText)))), params')
  }

  function WhereText(key: string, g: Grammar, keyText: string): string {
    " WHERE " + (QuoteNameAs(key, g.quotes) + (" = " + keyText))
  }

  function ChangesOf(pending: seq<CellChange>, row: nat): seq<CellChange> {
    if pending == [] then []
    else
      var before := ChangesOf(pending[..|pending| - 1], row);
      if pending[|pending| - 1].rowIndex == row then before + [pending[|pending| - 1]] else before
  }

  /** The edited rows, in the order a row was first edited. */
  function EditedRows(pending: seq<CellChange>): (rows: seq<nat>)
    ensures forall r :: r in rows <==> exists c <- pending :: c.rowIndex == r
    ensures forall i, j | 0 <= i < j < |rows| :: rows[i] != rows[j]
  {
    if pending == [] then []
    else
      var before, row := EditedRows(pending[..|pending| - 1]), pending[|pending| - 1].rowIndex;
      assert pending == pending[..|pending| - 1] + [pending[|pending| - 1]];
      if row in before then before else before + [row]
  }

  function CompileRows(rows: seq<nat>, grid: seq<Row>, pending: seq<CellChange>, table: string, key: string,
                       g: Grammar): seq<Statement>
    requires forall i | 0 <= i < |rows| :: rows[i] < |grid|
  {
    if rows == [] then []
    else
      var last := rows[|rows| - 1];
      CompileRows(rows[..|rows| - 1], grid, pending, table, key, g)
        + [Compile(table, key, grid[last], ChangesOf(pending, last), g)]
  }
}
