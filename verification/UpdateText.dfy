/** How an engine reads a generated UPDATE: its text parsed, its placeholders bound. */
module UpdateText {
  import opened Options
  import opened Sequences
  import opened Strings
  import opened SqlText
  import opened InlineEdits

  datatype Operand = NullWord | Bound(position: nat) | Inline(value: Val)

  datatype Update = Update(table: string, sets: seq<(string, Val)>, key: string, value: Val)

  // ---------------------------------------------------------------------------
  // The reader. `n` counts the placeholders met so far.

  function ReadOperand(text: string, g: Grammar, n: nat): (r: Option<(Operand, string, nat)>)
    ensures r.Some? ==> |r.value.1| < |text|
  {
    if text == "" then None
    else if text[0] == '\'' then
      match ReadBody(text[1..], g.escape)
      case None => None
      case Some((value, rest)) => Some((Inline(Text(value)), rest, n))
    else if g.bind == Positional && text[0] == '?' then Some((Bound(n + 1), text[1..], n + 1))
    else if g.bind.Numbered? && g.bind.prefix != "" && Starts(text, g.bind.prefix) then
      ReadNumbered(text[|g.bind.prefix|..], n)
    else if Starts(text, "NULL") then Some((NullWord, text[4..], n))
    else ReadNumber(text, n)
  }

  function ReadNumbered(text: string, n: nat): (r: Option<(Operand, string, nat)>)
    ensures r.Some? ==> |r.value.1| < |text|
  {
    var k := RunLength(text, IsDigit);
    if k == 0 then None else Some((Bound(ReadDecimal(text[..k])), text[k..], n + 1))
  }

  function ReadNumber(text: string, n: nat): (r: Option<(Operand, string, nat)>)
    ensures r.Some? ==> |r.value.1| < |text|
  {
    var k := RunLength(text, IsNumberChar);
    if k == 0 then None else Some((Inline(Num(text[..k])), text[k..], n))
  }

  function ReadIdentifier(text: string, g: Grammar): (r: Option<(string, string)>)
    ensures r.Some? ==> |r.value.1| < |text|
  {
    if text != "" && text[0] == g.quotes.0 then ReadName(text[1..], g.quotes.1) else None
  }

  /** `name = operand` */
  function ReadClause(text: string, g: Grammar, n: nat): (r: Option<((string, Operand), string, nat)>)
    ensures r.Some? ==> |r.value.1| < |text|
  {
    match ReadIdentifier(text, g)
    case None => None
    case Some((name, rest)) =>
      match Strip(rest, " = ")
      case None => None
      case Some(right) =>
        match ReadOperand(right, g, n)
        case None => None
        case Some((operand, rest', n')) => Some(((name, operand), rest', n'))
  }

  function ReadClauses(text: string, g: Grammar, n: nat): Option<(seq<(string, Operand)>, string, nat)>
    decreases |text|
  {
    match ReadClause(text, g, n)
    case None => None
    case Some((clause, rest, n')) =>
      match Strip(rest, ", ")
      case None => Some(([clause], rest, n'))
      case Some(more) =>
        match ReadClauses(more, g, n')
        case None => None
        case Some((clauses, rest', n'')) => Some(([clause] + clauses, rest', n''))
  }

  predicate IsTableChar(c: char) { IsBareChar(c) || c == '.' }

  function ReadUpdate(text: string, g: Grammar): Option<(string, seq<(string, Operand)>, (string, Operand))> {
    match Strip(text, "UPDATE ")
    case None => None
    case Some(rest) =>
      var k := RunLength(rest, IsTableChar);
      match ReadSets(rest[k..], g)
      case None => None
      case Some((clauses, after, n)) =>
        match ReadWhere(after, g, n)
        case None => None
        case Some(key) => Some((rest[..k], clauses, key))
  }

  function ReadSets(text: string, g: Grammar): Option<(seq<(string, Operand)>, string, nat)> {
    match Strip(text, " SET ")
    case None => None
    case Some(rest) => ReadClauses(rest, g, 0)
  }

  /** The WHERE and then the end of the statement. */
  function ReadWhere(text: string, g: Grammar, n: nat): Option<(string, Operand)> {
    match Strip(text, " WHERE ")
    case None => None
    case Some(rest) =>
      match ReadClause(rest, g, n)
      case None => None
      case Some((key, end, _)) => if end == "" then Some(key) else None
  }

  // ---------------------------------------------------------------------------
  // Binding

  function Resolve(operand: Operand, params: seq<Val>): Option<Val> {
    match operand
    case NullWord => Some(Null)
    case Inline(value) => Some(value)
    case Bound(k) => if 1 <= k <= |params| then Some(params[k - 1]) else None
  }

  function ResolveAll(clauses: seq<(string, Operand)>, params: seq<Val>): Option<seq<(string, Val)>> {
    if clauses == [] then Some([])
    else
      match (Resolve(clauses[0].1, params), ResolveAll(clauses[1..], params))
      case (Some(value), Some(rest)) => Some([(clauses[0].0, value)] + rest)
      case _ => None
  }

  /** What the engine is told by a statement and its parameters. */
  function Meaning(s: Statement, g: Grammar): Option<Update> {
    match ReadUpdate(s.sql, g)
    case None => None
    case Some((table, clauses, (key, operand))) =>
      match (ResolveAll(clauses, s.params), Resolve(operand, s.params))
      case (Some(sets), Some(value)) => Some(Update(table, sets, key, value))
      case _ => None
  }

  // ---------------------------------------------------------------------------
  // Reading back what was emitted

  /** The operand a value is emitted as, after `n` placeholders. */
  function OperandOf(value: Val, g: Grammar, n: nat): Operand {
    if g.bind == NoBind then Inline(value) else Bound(n + 1)
  }

  /** What may follow an operand: a separator, the WHERE, or the end. */
  predicate Ends(rest: string) { rest == "" || rest[0] == ',' || rest[0] == ' ' }

  lemma NumberReadsBack(text: NumText, rest: string, n: nat)
    requires Ends(rest)
    ensures ReadNumber(text + rest, n) == Some((Inline(Num(text)), rest, n))
  {
    RunLengthOf(text, rest, IsNumberChar);
    assert (text + rest)[..|text|] == text && (text + rest)[|text|..] == rest;
  }

  lemma NumberedReadsBack(k: nat, rest: string, n: nat)
    requires Ends(rest)
    ensures ReadNumbered(Decimal(k) + rest, n) == Some((Bound(k), rest, n + 1))
  {
    var digits := Decimal(k);
    RunLengthOf(digits, rest, IsDigit);
    DecimalReadsBack(k);
    assert (digits + rest)[..|digits|] == digits && (digits + rest)[|digits|..] == rest;
  }

  lemma NumberIsNoOther(text: NumText, rest: string)
    requires Ends(rest)
    ensures (text + rest)[0] == text[0] && text[0] != '\'' && !IsBindSign(text[0])
    ensures !Starts(text + rest, "NULL")
  {
    var whole := text + rest;
    assert IsNumberChar(text[0]);
    assert |whole| > 1 ==> whole[1] != 'U' by {
      if |text| > 1 { assert IsNumberChar(text[1]) && whole[1] == text[1]; }
    }
    StripOther(whole, "NULL", 1);
  }

  lemma InlineReadsBack(value: Val, g: Grammar, rest: string, n: nat)
    requires value != Null && Ends(rest) && g.bind == NoBind
    ensures
      var text := if value.Num? then value.text else QuoteAs(value.value, g.escape);
      ReadOperand(text + rest, g, n) == Some((Inline(value), rest, n))
  {
    if value.Num? {
      NumberReadsBack(value.text, rest, n);
      NumberIsNoOther(value.text, rest);
    } else {
      QuoteReadsBack(value.value, g.escape, rest);
    }
  }

  lemma PositionalReadsBack(g: Grammar, rest: string, n: nat)
    requires g.bind == Positional
    ensures ReadOperand("?" + rest, g, n) == Some((Bound(n + 1), rest, n + 1))
  {
    assert ("?" + rest)[1..] == rest;
  }

  lemma NumberedOpens(g: Grammar, tail: string, n: nat)
    requires g.bind.Numbered? && WellFormed(g)
    ensures ReadOperand(g.bind.prefix + tail, g, n) == ReadNumbered(tail, n)
  {
    StripPrefix(g.bind.prefix, tail);
    assert (g.bind.prefix + tail)[0] == g.bind.prefix[0];
  }

  lemma NumberedOperandReadsBack(g: Grammar, rest: string, n: nat)
    requires g.bind.Numbered? && WellFormed(g) && Ends(rest)
    ensures ReadOperand(g.bind.prefix + Decimal(n + 1) + rest, g, n) == Some((Bound(n + 1), rest, n + 1))
  {
    NumberedReadsBack(n + 1, rest, n);
    Assoc(g.bind.prefix, Decimal(n + 1), rest);
    NumberedOpens(g, Decimal(n + 1) + rest, n);
  }

  lemma EmitReadsBack(value: Val, g: Grammar, params: seq<Val>, rest: string)
    requires value != Null && WellFormed(g) && Ends(rest)
    ensures
      var (text, params') := Emit(value, g, params);
      ReadOperand(text + rest, g, |params|) == Some((OperandOf(value, g, |params|), rest, |params'|))
  {
    match g.bind
    case NoBind => InlineReadsBack(value, g, rest, |params|);
    case Positional => PositionalReadsBack(g, rest, |params|);
    case Numbered(prefix) => NumberedOperandReadsBack(g, rest, |params|);
  }

  lemma NullReadsBack(g: Grammar, rest: string, n: nat)
    requires WellFormed(g)
    ensures ReadOperand("NULL" + rest, g, n) == Some((NullWord, rest, n))
  {
    var text := "NULL" + rest;
    StripPrefix("NULL", rest);
    assert text[0] == 'N';
    if g.bind.Numbered? {
      StripOther(text, g.bind.prefix, 0);
    }
  }

  // ---------------------------------------------------------------------------
  // Clauses

  /** What a change's SET clause is read as, after `n` placeholders. */
  function ClauseOf(c: CellChange, g: Grammar, n: nat): (string, Operand) {
    (c.columnId, if c.MeansNull() then NullWord else OperandOf(Text(c.newValue), g, n))
  }

  lemma AssignmentReadsBack(name: string, g: Grammar, right: string, n: nat,
                            operand: Operand, rest: string, n': nat)
    requires WellFormed(g) && ReadOperand(right, g, n) == Some((operand, rest, n'))
    ensures ReadClause(QuoteNameAs(name, g.quotes) + (" = " + right), g, n) == Some(((name, operand), rest, n'))
  {
    var after := " = " + right;
    StripPrefix(" = ", right);
    IdentifierReadsBack(name, g.quotes, after);
    assert ReadIdentifier(QuoteNameAs(name, g.quotes) + after, g) == Some((name, after));
  }

  lemma SetClauseReadsBack(c: CellChange, g: Grammar, params: seq<Val>, rest: string)
    requires WellFormed(g) && Ends(rest)
    ensures
      var (text, params') := SetClause(c, g, params);
      ReadClause(text + rest, g, |params|) == Some((ClauseOf(c, g, |params|), rest, |params'|))
  {
    var name := QuoteNameAs(c.columnId, g.quotes);
    if c.MeansNull() {
      NullReadsBack(g, rest, |params|);
      AssignmentReadsBack(c.columnId, g, "NULL" + rest, |params|, NullWord, rest, |params|);
      Assoc(name + " = ", "NULL", rest);
      Assoc(name, " = ", "NULL" + rest);
    } else {
      var (text, params') := Emit(Text(c.newValue), g, params);
      EmitReadsBack(Text(c.newValue), g, params, rest);
      AssignmentReadsBack(c.columnId, g, text + rest, |params|,
                          OperandOf(Text(c.newValue), g, |params|), rest, |params'|);
      Assoc(name + " = ", text, rest);
      Assoc(name, " = ", text + rest);
    }
  }

  function ClausesOf(changes: seq<CellChange>, g: Grammar, params: seq<Val>): seq<(string, Operand)> {
    if changes == [] then []
    else [ClauseOf(changes[0], g, |params|)]
         + ClausesOf(changes[1..], g, SetClause(changes[0], g, params).1)
  }

  lemma {:induction false} SetClausesLength(changes: seq<CellChange>, g: Grammar, params: seq<Val>)
    ensures |SetClauses(changes, g, params).0| == |changes|
  {
    if changes != [] {
      SetClausesLength(changes[1..], g, SetClause(changes[0], g, params).1);
    }
  }

  lemma OneClauseReadsBack(c: CellChange, g: Grammar, params: seq<Val>, end: string)
    requires WellFormed(g) && Ends(end) && Strip(end, ", ") == None
    ensures
      var (text, params') := SetClause(c, g, params);
      ReadClauses(text + end, g, |params|) == Some(([ClauseOf(c, g, |params|)], end, |params'|))
  {
    SetClauseReadsBack(c, g, params, end);
  }

  lemma LastClauseReadsBack(changes: seq<CellChange>, g: Grammar, params: seq<Val>, end: string)
    requires WellFormed(g) && |changes| == 1 && Ends(end) && Strip(end, ", ") == None
    ensures
      var (clauses, params') := SetClauses(changes, g, params);
      ReadClauses(Join(clauses, ", ") + end, g, |params|) == Some((ClausesOf(changes, g, params), end, |params'|))
  {
    var (first, params1) := SetClause(changes[0], g, params);
    var none := changes[1..];
    assert none == [];
    assert SetClauses(none, g, params1) == ([], params1) && ClausesOf(none, g, params1) == [];
    assert [first] + [] == [first];
    assert SetClauses(changes, g, params) == ([first], params1);
    var clause := ClauseOf(changes[0], g, |params|);
    assert [clause] + [] == [clause];
    assert ClausesOf(changes, g, params) == [clause] + ClausesOf(none, g, params1);
    assert Join([first], ", ") == first;
    OneClauseReadsBack(changes[0], g, params, end);
  }

  lemma MoreClausesReadBack(c: CellChange, g: Grammar, params: seq<Val>, more: string,
                            clauses: seq<(string, Operand)>, end: string, n: nat)
    requires WellFormed(g)
    requires ReadClauses(more, g, |SetClause(c, g, params).1|) == Some((clauses, end, n))
    ensures ReadClauses(SetClause(c, g, params).0 + (", " + more), g, |params|)
         == Some(([ClauseOf(c, g, |params|)] + clauses, end, n))
  {
    SetClauseReadsBack(c, g, params, ", " + more);
    StripPrefix(", ", more);
  }

  lemma {:induction false} ClausesReadBack(changes: seq<CellChange>, g: Grammar, params: seq<Val>, end: string)
    requires WellFormed(g) && changes != [] && Ends(end) && Strip(end, ", ") == None
    ensures
      var (clauses, params') := SetClauses(changes, g, params);
      ReadClauses(Join(clauses, ", ") + end, g, |params|) == Some((ClausesOf(changes, g, params), end, |params'|))
  {
    var (first, params1) := SetClause(changes[0], g, params);
    var (rest, params2) := SetClauses(changes[1..], g, params1);
    var clauses := [first] + rest;
    SetClausesLength(changes[1..], g, params1);
    assert clauses[1..] == rest;
    assert SetClauses(changes, g, params) == (clauses, params2);
    assert ClausesOf(changes, g, params) == [ClauseOf(changes[0], g, |params|)] + ClausesOf(changes[1..], g, params1);
    if |changes| == 1 {
      LastClauseReadsBack(changes, g, params, end);
    } else {
      ClausesReadBack(changes[1..], g, params1, end);
      var more := Join(rest, ", ") + end;
      MoreClausesReadBack(changes[0], g, params, more, ClausesOf(changes[1..], g, params1), end, |params2|);
      Assoc(first + ", ", Join(rest, ", "), end);
      Assoc(first, ", ", more);
    }
  }

  // ---------------------------------------------------------------------------
  // Whole statements

  function SetsOf(changes: seq<CellChange>): seq<(string, Val)> {
    if changes == [] then [] else [(changes[0].columnId, changes[0].Stored())] + SetsOf(changes[1..])
  }

  lemma EmitResolves(value: Val, g: Grammar, params: seq<Val>, final: seq<Val>)
    requires value != Null && Emit(value, g, params).1 <= final
    ensures params <= Emit(value, g, params).1
    ensures Resolve(OperandOf(value, g, |params|), final) == Some(value)
  {
    var params' := Emit(value, g, params).1;
    if g.bind != NoBind {
      assert params' == params + [value] && final[|params|] == params'[|params|];
    }
  }

  lemma SetClauseResolves(c: CellChange, g: Grammar, params: seq<Val>, final: seq<Val>)
    requires SetClause(c, g, params).1 <= final
    ensures params <= SetClause(c, g, params).1
    ensures Resolve(ClauseOf(c, g, |params|).1, final) == Some(c.Stored())
  {
    if !c.MeansNull() {
      EmitResolves(Text(c.newValue), g, params, final);
    }
  }

  lemma {:induction false} ClausesResolve(changes: seq<CellChange>, g: Grammar, params: seq<Val>, final: seq<Val>)
    requires SetClauses(changes, g, params).1 <= final
    ensures params <= SetClauses(changes, g, params).1
    ensures ResolveAll(ClausesOf(changes, g, params), final) == Some(SetsOf(changes))
  {
    if changes != [] {
      var c, params1 := changes[0], SetClause(changes[0], g, params).1;
      ClausesResolve(changes[1..], g, params1, final);
      SetClauseResolves(c, g, params, final);
      var clause, rest := ClauseOf(c, g, |params|), ClausesOf(changes[1..], g, params1);
      var clauses := [clause] + rest;
      assert clauses[0] == clause && clauses[1..] == rest;
    }
  }

  lemma {:induction false} BareIsTable(name: string, start: bool)
    requires IsBareFrom(name, start)
    ensures forall c <- name :: IsTableChar(c)
  {
    if name != "" {
      BareIsTable(name[1..], !start && name[0] == '.');
    }
  }

  lemma WhereReadsBack(key: string, g: Grammar, keyText: string, n: nat, operand: Operand, n': nat)
    requires WellFormed(g) && ReadOperand(keyText, g, n) == Some((operand, "", n'))
    ensures ReadWhere(" WHERE " + (QuoteNameAs(key, g.quotes) + (" = " + keyText)), g, n) == Some((key, operand))
  {
    AssignmentReadsBack(key, g, keyText, n, operand, "", n');
    StripPrefix(" WHERE ", QuoteNameAs(key, g.quotes) + (" = " + keyText));
  }

  lemma HeadReadsBack(table: string, rest: string, g: Grammar, clauses: seq<(string, Operand)>, after: string,
                      n: nat, key: (string, Operand))
    requires IsBareIdentifier(table)
    requires ReadClauses(rest, g, 0) == Some((clauses, after, n)) && ReadWhere(after, g, n) == Some(key)
    ensures ReadUpdate("UPDATE " + (table + (" SET " + rest)), g) == Some((table, clauses, key))
  {
    var tail := table + (" SET " + rest);
    BareIsTable(table, true);
    StripPrefix("UPDATE ", tail);
    assert (" SET " + rest)[0] == ' ';
    RunLengthOf(table, " SET " + rest, IsTableChar);
    assert tail[..|table|] == table && tail[|table|..] == " SET " + rest;
    StripPrefix(" SET ", rest);
  }

  lemma WhereEndsClauses(key: string, g: Grammar, keyText: string)
    ensures Ends(WhereText(key, g, keyText)) && Strip(WhereText(key, g, keyText), ", ") == None
  {
    var end := WhereText(key, g, keyText);
    assert end[0] == ' ';
    StripOther(end, ", ", 0);
  }

  lemma StatementReadsBack(table: string, key: string, row: Row, changes: seq<CellChange>, g: Grammar)
    requires WellFormed(g) && IsBareIdentifier(table) && changes != []
    ensures
      var params := SetClauses(changes, g, []).1;
      ReadUpdate(Compile(table, key, row, changes, g).sql, g)
        == Some((table, ClausesOf(changes, g, []), (key, OperandOf(KeyValue(row, key), g, |params|))))
  {
    var (clauses, params) := SetClauses(changes, g, []);
    var value := KeyValue(row, key);
    var (keyText, params') := Emit(value, g, params);
    var operand, end := OperandOf(value, g, |params|), WhereText(key, g, keyText);
    assert ReadOperand(keyText, g, |params|) == Some((operand, "", |params'|)) by {
      EmitReadsBack(value, g, params, "");
      assert keyText + "" == keyText;
    }
    WhereReadsBack(key, g, keyText, |params|, operand, |params'|);
    WhereEndsClauses(key, g, keyText);
    ClausesReadBack(changes, g, [], end);
    HeadReadsBack(table, Join(clauses, ", ") + end, g, ClausesOf(changes, g, []), end, |params|, (key, operand));
  }

  /**
   In every dialect a generated statement, read by the engine with its parameters bound, says
   exactly: set each edited column to its stored value where the key is the row's key. Its
   placeholders number 1 to n in step with `params`, whatever the cells and names hold.
   */
  lemma StatementMeans(table: string, key: string, row: Row, changes: seq<CellChange>, g: Grammar)
    requires WellFormed(g) && IsBareIdentifier(table) && changes != []
    ensures Meaning(Compile(table, key, row, changes, g), g)
         == Some(Update(table, SetsOf(changes), key, KeyValue(row, key)))
  {
    StatementReadsBack(table, key, row, changes, g);
    var params := SetClauses(changes, g, []).1;
    var final := Emit(KeyValue(row, key), g, params).1;
    EmitResolves(KeyValue(row, key), g, params, final);
    ClausesResolve(changes, g, [], final);
    MeansWhatResolves(Compile(table, key, row, changes, g), g, table, ClausesOf(changes, g, []), SetsOf(changes), key,
                      OperandOf(KeyValue(row, key), g, |params|), KeyValue(row, key));
  }

  lemma MeansWhatResolves(s: Statement, g: Grammar, table: string, clauses: seq<(string, Operand)>, sets: seq<(string, Val)>,
                          key: string, operand: Operand, value: Val)
    requires ReadUpdate(s.sql, g) == Some((table, clauses, (key, operand)))
    requires ResolveAll(clauses, s.params) == Some(sets) && Resolve(operand, s.params) == Some(value)
    ensures Meaning(s, g) == Some(Update(table, sets, key, value))
  {
  }

  // ---------------------------------------------------------------------------
  // Which text is NULL

  /** A cell cleared, or the word in any mixture of cases. */
  predicate IsNullWord(text: string) {
    || text == ""
    || (|text| == 4 && text[0] in {'n', 'N'} && text[1] in {'u', 'U'} && text[2] in {'l', 'L'} && text[3] in {'l', 'L'})
  }

  lemma StoredAsTyped(c: CellChange)
    ensures c.Stored() == if IsNullWord(c.newValue) then Null else Text(c.newValue)
  {
    var text := c.newValue;
    assert |Upper(text)| == |text|;
    if |text| == 4 {
      assert Upper(text) == "NULL" <==>
        Upper(text)[0] == 'N' && Upper(text)[1] == 'U' && Upper(text)[2] == 'L' && Upper(text)[3] == 'L';
    }
  }

  lemma {:induction false} SetsAt(changes: seq<CellChange>, k: nat)
    requires k < |changes|
    ensures |SetsOf(changes)| == |changes|
    ensures SetsOf(changes)[k] == (changes[k].columnId, changes[k].Stored())
  {
    if |changes| > 1 {
      SetsAt(changes[1..], if k == 0 then 0 else k - 1);
    } else {
      assert changes[1..] == [];
    }
  }

  /**
   Read back, a statement sets each edited column to NULL if and only if the text typed is empty or
   the word `null` in any case; any other text is stored character for character.
   */
  lemma EachColumnIsSetToItsText(table: string, key: string, row: Row, changes: seq<CellChange>, g: Grammar, k: nat)
    requires WellFormed(g) && IsBareIdentifier(table) && k < |changes|
    ensures
      var meaning, text := Meaning(Compile(table, key, row, changes, g), g), changes[k].newValue;
      && meaning.Some?
      && |meaning.value.sets| == |changes|
      && meaning.value.sets[k] == (changes[k].columnId, if IsNullWord(text) then Null else Text(text))
  {
    StatementMeans(table, key, row, changes, g);
    SetsAt(changes, k);
    StoredAsTyped(changes[k]);
  }
}
