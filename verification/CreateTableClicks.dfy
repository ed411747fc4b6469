/**
 The create-table form told from its clicks: which columns are there, and what the last click on
 each of their controls says of them.
 */
module CreateTableClicks {
  import opened Options
  import opened Strings
  import opened SqlText
  import opened CreateTable

  function Last(trace: seq<Event>): Event
    requires trace != []
  {
    trace[|trace| - 1]
  }

  function Front(trace: seq<Event>): seq<Event>
    requires trace != []
  {
    trace[..|trace| - 1]
  }

  // ---------------------------------------------------------------------------
  // The ledger

  function DbTold(first: Option<Dialect>, trace: seq<Event>): Option<Dialect> {
    if trace == [] then first else if Last(trace).Connect? then Last(trace).dbType else DbTold(first, Front(trace))
  }

  /** Columns by the moment they came: 0 for the first one, `k` for the one the `k`th event made. */
  function IdsTold(first: Option<Dialect>, trace: seq<Event>): seq<nat>
    decreases |trace|, 1
  {
    if trace == [] then [0] else NextIds(IdsTold(first, Front(trace)), Last(trace), StartsOver(first, trace), |trace|)
  }

  /** One event at most drops all columns for one, adds one or drops one; the only one stays. */
  function NextIds(before: seq<nat>, e: Event, startsOver: bool, id: nat): seq<nat> {
    if startsOver then [id]
    else if e.Add? then before + [id]
    else if e.Remove? && |before| > 1 && e.index < |before| then Without(before, before[e.index])
    else before
  }

  /** The engine changed, or a complete form was created: the columns are dropped for one new one. */
  predicate StartsOver(first: Option<Dialect>, trace: seq<Event>)
    requires trace != []
    decreases |trace|, 0
  {
    || (Last(trace).Connect? && Last(trace).dbType != DbTold(first, Front(trace)))
    || (Last(trace).Create? && CompleteTold(first, Front(trace)))
  }

  function Without(ids: seq<nat>, id: nat): seq<nat> {
    if ids == [] then [] else (if ids[0] == id then [] else [ids[0]]) + Without(ids[1..], id)
  }

  predicate IsClick(e: Event) {
    e.Rename? || e.Retype? || e.TickPrimary? || e.TickNullable? || e.TickUnique?
  }

  /** The column a click was on. */
  predicate IsOn(e: Event, ids: seq<nat>, id: nat) {
    IsClick(e) && e.index < |ids| && ids[e.index] == id
  }

  /** The last click of a kind on a column. */
  function LastClick(first: Option<Dialect>, trace: seq<Event>, id: nat, kind: Event -> bool): Option<Event>
    decreases |trace|, 1
  {
    if trace == [] then None
    else if kind(Last(trace)) && IsOn(Last(trace), IdsTold(first, Front(trace)), id) then Some(Last(trace))
    else LastClick(first, Front(trace), id, kind)
  }

  /** The column was added empty; any other one began as the key a form begins with. */
  predicate WasAdded(trace: seq<Event>, id: nat) {
    0 < id <= |trace| && trace[id - 1].Add?
  }

  predicate IsRetype(e: Event) { e.Retype? }
  predicate IsUntick(e: Event) { e.TickPrimary? && !e.checked }
  predicate IsTyping(e: Event) { IsRetype(e) || IsUntick(e) }
  predicate IsNulling(e: Event) { e.TickNullable? || (e.TickPrimary? && e.checked) }
  predicate IsRename(e: Event) { e.Rename? }
  predicate IsKeying(e: Event) { e.TickPrimary? }
  predicate IsUniquing(e: Event) { e.TickUnique? }

  function NameTold(first: Option<Dialect>, trace: seq<Event>, id: nat): string
    decreases |trace|, 2
  {
    match LastClick(first, trace, id, IsRename)
    case Some(Rename(_, input)) => Sanitize(input)
    case _ => if WasAdded(trace, id) then "" else "id"
  }

  /** The type chosen last; the sentinel gives way to the key type once the key is unticked. */
  function TypeTold(first: Option<Dialect>, trace: seq<Event>, id: nat): string {
    var e := EngineOf(DbTold(first, trace));
    var chosen :=
      match LastClick(first, trace, id, IsRetype)
      case Some(Retype(_, typ)) => typ
      case _ => if WasAdded(trace, id) then FirstType(DbTold(first, trace))
                else if e.autoIncrement.Some? then AUTO_INCREMENT else e.keyType;
    var typing := LastClick(first, trace, id, IsTyping);
    if chosen == AUTO_INCREMENT && typing.Some? && IsUntick(typing.value) then e.keyType else chosen
  }

  function PrimaryTold(first: Option<Dialect>, trace: seq<Event>, id: nat): bool {
    match LastClick(first, trace, id, IsKeying)
    case Some(TickPrimary(_, checked)) => checked
    case _ => !WasAdded(trace, id) && DbTold(first, trace) != Some(Trino)
  }

  /** A ticked key clears the null box, and it may be ticked again after it. */
  function NullableTold(first: Option<Dialect>, trace: seq<Event>, id: nat): bool {
    match LastClick(first, trace, id, IsNulling)
    case Some(TickNullable(_, checked)) => checked
    case Some(_) => false
    case None => WasAdded(trace, id)
  }

  function UniqueTold(first: Option<Dialect>, trace: seq<Event>, id: nat): bool {
    match LastClick(first, trace, id, IsUniquing)
    case Some(TickUnique(_, checked)) => checked
    case _ => !WasAdded(trace, id) && DbTold(first, trace) != Some(Trino)
  }

  function ColumnTold(first: Option<Dialect>, trace: seq<Event>, id: nat): Column {
    Column(NameTold(first, trace, id), TypeTold(first, trace, id), PrimaryTold(first, trace, id),
           NullableTold(first, trace, id), UniqueTold(first, trace, id), "")
  }

  /** The first type an engine lists. */
  function FirstType(dbType: Option<Dialect>): string {
    match dbType
    case Some(Oracle) => "VARCHAR2(255)"
    case Some(Sqlite) => "TEXT"
    case Some(Libsql) => "TEXT"
    case _ => "VARCHAR(255)"
  }

  /** The name given last since the form was last created from. */
  function TableTold(first: Option<Dialect>, trace: seq<Event>): string
    decreases |trace|, 0
  {
    if trace == [] then ""
    else if Last(trace).NameTable? then Sanitize(Last(trace).input)
    else if Last(trace).Create? && CompleteTold(first, Front(trace)) then ""
    else TableTold(first, Front(trace))
  }

  /** The table and every column have a name. */
  predicate CompleteTold(first: Option<Dialect>, trace: seq<Event>)
    decreases |trace|, 3
  {
    TableTold(first, trace) != "" && forall id <- IdsTold(first, trace) :: NameTold(first, trace, id) != ""
  }

  /** The form the clicks tell of. */
  function FormTold(first: Option<Dialect>, trace: seq<Event>): Form {
    var ids := IdsTold(first, trace);
    Form(DbTold(first, trace), TableTold(first, trace),
         seq(|ids|, k requires 0 <= k < |ids| => ColumnTold(first, trace, ids[k])))
  }

  // ---------------------------------------------------------------------------
  // Columns are told apart

  ghost predicate Distinct(ids: seq<nat>) {
    forall j, k | 0 <= j < k < |ids| :: ids[j] != ids[k]
  }

  lemma {:induction false} WithoutAbsent(ids: seq<nat>, id: nat)
    requires id !in ids
    ensures Without(ids, id) == ids
  {
    if ids != [] {
      WithoutAbsent(ids[1..], id);
      assert ids == [ids[0]] + ids[1..];
    }
  }

  /** Removing drops exactly that column, and keeps the others in order. */
  lemma {:induction false} WithoutAt(ids: seq<nat>, i: nat)
    requires Distinct(ids) && i < |ids|
    ensures Without(ids, ids[i]) == ids[..i] + ids[i + 1..]
  {
    var rest := ids[1..];
    assert forall k | 0 <= k < |rest| :: rest[k] == ids[k + 1];
    if i == 0 {
      WithoutAbsent(rest, ids[0]);
      assert ids[..0] + ids[1..] == rest;
    } else {
      WithoutAt(rest, i - 1);
      assert ids[..i] == [ids[0]] + rest[..i - 1] && ids[i + 1..] == rest[i..];
    }
  }

  lemma NextIdsAreDistinct(before: seq<nat>, e: Event, startsOver: bool, id: nat)
    requires Distinct(before) && before != [] && forall known <- before :: known < id
    ensures
      var ids := NextIds(before, e, startsOver, id);
      Distinct(ids) && ids != [] && forall known <- ids :: known <= id
  {
    OneMoreDistinct(before, id);
    if e.Remove? && |before| > 1 && e.index < |before| {
      WithoutAt(before, e.index);
      DroppedIsDistinct(before, e.index);
    }
    forall known | known in NextIds(before, e, startsOver, id) ensures known <= id {
      assert known == id || known in before;
    }
  }

  lemma {:induction false} IdsAreDistinct(first: Option<Dialect>, trace: seq<Event>)
    ensures Distinct(IdsTold(first, trace)) && IdsTold(first, trace) != []
    ensures forall id <- IdsTold(first, trace) :: id <= |trace|
  {
    if trace != [] {
      IdsAreDistinct(first, Front(trace));
      NextIdsAreDistinct(IdsTold(first, Front(trace)), Last(trace), StartsOver(first, trace), |trace|);
    }
  }

  lemma OneMoreDistinct(ids: seq<nat>, id: nat)
    requires Distinct(ids) && forall known <- ids :: known < id
    ensures Distinct(ids + [id]) && forall known <- ids + [id] :: known <= id
  {
    assert forall k | 0 <= k < |ids| :: ids[k] in ids;
  }

  lemma DroppedIsDistinct(ids: seq<nat>, i: nat)
    requires Distinct(ids) && i < |ids|
    ensures Distinct(ids[..i] + ids[i + 1..])
    ensures forall id <- ids[..i] + ids[i + 1..] :: id in ids
  {
    var rest := ids[..i] + ids[i + 1..];
    assert forall k | 0 <= k < |rest| :: rest[k] == ids[if k < i then k else k + 1];
  }

  lemma {:induction false} NoClickYet(first: Option<Dialect>, trace: seq<Event>, id: nat, kind: Event -> bool)
    requires id > |trace|
    ensures LastClick(first, trace, id, kind) == None
  {
    if trace != [] {
      IdsAreDistinct(first, Front(trace));
      assert forall k | 0 <= k < |IdsTold(first, Front(trace))| :: IdsTold(first, Front(trace))[k] in IdsTold(first, Front(trace));
      NoClickYet(first, Front(trace), id, kind);
    }
  }

  // ---------------------------------------------------------------------------
  // One event

  ghost predicate Kept(first: Option<Dialect>, trace: seq<Event>, id: nat) {
    && trace != [] && !StartsOver(first, trace)
    && id in IdsTold(first, Front(trace))
  }

  lemma KeptBefore(first: Option<Dialect>, trace: seq<Event>, id: nat)
    requires Kept(first, trace, id)
    ensures DbTold(first, trace) == DbTold(first, Front(trace))
    ensures WasAdded(trace, id) == WasAdded(Front(trace), id)
  {
    IdsAreDistinct(first, Front(trace));
  }

  lemma NextClick(first: Option<Dialect>, trace: seq<Event>, id: nat, kind: Event -> bool)
    requires trace != []
    ensures LastClick(first, trace, id, kind) ==
      if kind(Last(trace)) && IsOn(Last(trace), IdsTold(first, Front(trace)), id) then Some(Last(trace))
      else LastClick(first, Front(trace), id, kind)
  {
  }

  /** A column the event is not on stays as it was. */
  lemma ColumnStays(first: Option<Dialect>, trace: seq<Event>, id: nat)
    requires Kept(first, trace, id) && !IsOn(Last(trace), IdsTold(first, Front(trace)), id)
    ensures ColumnTold(first, trace, id) == ColumnTold(first, Front(trace), id)
  {
    KeptBefore(first, trace, id);
    NextClick(first, trace, id, IsRename);
    NextClick(first, trace, id, IsRetype);
    NextClick(first, trace, id, IsTyping);
    NextClick(first, trace, id, IsKeying);
    NextClick(first, trace, id, IsNulling);
    NextClick(first, trace, id, IsUniquing);
  }

  /** What a click does to the column it is on. */
  function Clicked(col: Column, e: Event, keyType: string): Column {
    match e
    case Rename(_, input) => col.(name := Sanitize(input))
    case Retype(_, typ) => col.(typ := typ)
    case TickPrimary(_, checked) =>
      col.(isPrimary := checked,
           isNullable := col.isNullable && !checked,
           typ := if col.typ == AUTO_INCREMENT && !checked then keyType else col.typ)
    case TickNullable(_, checked) => col.(isNullable := checked)
    case TickUnique(_, checked) => col.(isUnique := checked)
    case _ => col
  }

  lemma ColumnClicked(first: Option<Dialect>, trace: seq<Event>, id: nat)
    requires Kept(first, trace, id) && IsOn(Last(trace), IdsTold(first, Front(trace)), id)
    ensures ColumnTold(first, trace, id)
         == Clicked(ColumnTold(first, Front(trace), id), Last(trace), EngineOf(DbTold(first, trace)).keyType)
  {
    KeptBefore(first, trace, id);
    NextClick(first, trace, id, IsRename);
    NextClick(first, trace, id, IsKeying);
    NextClick(first, trace, id, IsNulling);
    NextClick(first, trace, id, IsUniquing);
    TypeClicked(first, trace, id);
  }

  lemma TypeClicked(first: Option<Dialect>, trace: seq<Event>, id: nat)
    requires Kept(first, trace, id) && IsOn(Last(trace), IdsTold(first, Front(trace)), id)
    ensures
      var typ, e := TypeTold(first, Front(trace), id), Last(trace);
      TypeTold(first, trace, id) ==
        if e.Retype? then e.typ
        else if IsUntick(e) && typ == AUTO_INCREMENT then EngineOf(DbTold(first, trace)).keyType else typ
  {
    KeptBefore(first, trace, id);
    NextClick(first, trace, id, IsRetype);
    NextClick(first, trace, id, IsTyping);
    KeyTypeIsNoSentinel(DbTold(first, trace));
  }

  lemma KeyTypeIsNoSentinel(dbType: Option<Dialect>)
    ensures EngineOf(dbType).keyType != AUTO_INCREMENT
  {
    EveryEngine(dbType);
    assert "INTEGER"[0] == 'I' && "INT"[0] == 'I' && AUTO_INCREMENT[0] == '_';
  }

  lemma NeverClicked(first: Option<Dialect>, trace: seq<Event>, kind: Event -> bool)
    requires trace != [] && (Last(trace).Add? || Last(trace).Connect? || Last(trace).Create?)
    ensures LastClick(first, trace, |trace|, kind) == None
  {
    NextClick(first, trace, |trace|, kind);
    NoClickYet(first, Front(trace), |trace|, kind);
  }

  /** A column that has just come is as its kind begins. */
  lemma ColumnBegins(first: Option<Dialect>, trace: seq<Event>)
    requires trace != [] && (Last(trace).Add? || Last(trace).Connect? || Last(trace).Create?)
    ensures ColumnTold(first, trace, |trace|) ==
      if Last(trace).Add? then Column("", FirstType(DbTold(first, trace)), false, true, false, "")
      else DefaultColumn(EngineOf(DbTold(first, trace)))
  {
    NeverClicked(first, trace, IsRename);
    NeverClicked(first, trace, IsRetype);
    NeverClicked(first, trace, IsTyping);
    NeverClicked(first, trace, IsKeying);
    NeverClicked(first, trace, IsNulling);
    NeverClicked(first, trace, IsUniquing);
    Begins(DbTold(first, trace));
  }

  lemma Begins(dbType: Option<Dialect>)
    ensures
      var e := EngineOf(dbType);
      e.types[0] == FirstType(dbType) && (e.supportsConstraints <==> dbType != Some(Trino))
  {
    EveryEngine(dbType);
  }

  // ---------------------------------------------------------------------------
  // The form is the one the clicks tell of

  /** The columns told, where each one kept stays and is perhaps clicked. */
  lemma ColumnsKept(first: Option<Dialect>, trace: seq<Event>, k: nat)
    requires trace != [] && !StartsOver(first, trace) && k < |IdsTold(first, Front(trace))|
    ensures
      var ids, e := IdsTold(first, Front(trace)), Last(trace);
      var was := ColumnTold(first, Front(trace), ids[k]);
      ColumnTold(first, trace, ids[k]) ==
        if IsClick(e) && e.index == k then Clicked(was, e, EngineOf(DbTold(first, trace)).keyType) else was
  {
    var ids, e := IdsTold(first, Front(trace)), Last(trace);
    IdsAreDistinct(first, Front(trace));
    if IsOn(e, ids, ids[k]) {
      assert e.index == k;
      ColumnClicked(first, trace, ids[k]);
    } else {
      ColumnStays(first, trace, ids[k]);
    }
  }

  lemma NamesAreWords(form: Form)
    requires GoodForm(form)
    ensures IsName(form.tableName) && forall col <- form.columns :: IsName(col.name)
  {
    forall col | col in form.columns ensures IsName(col.name) {
      var k :| 0 <= k < |form.columns| && form.columns[k] == col;
      assert GoodColumn(form.columns[k], form.Engine());
    }
  }

  lemma CompleteIff(form: Form)
    requires IsName(form.tableName) && forall col <- form.columns :: IsName(col.name)
    ensures Complete(form) <==> form.tableName != "" && forall col <- form.columns :: col.name != ""
  {
    NameIsTrimmed(form.tableName);
    forall col | col in form.columns ensures Trim(col.name) == col.name {
      NameIsTrimmed(col.name);
    }
  }

  lemma NamesFollow(ids: seq<nat>, cols: seq<Column>, named: nat -> string)
    requires |cols| == |ids| && forall k | 0 <= k < |ids| :: cols[k].name == named(ids[k])
    ensures (forall col <- cols :: col.name != "") <==> forall id <- ids :: named(id) != ""
  {
    assert (forall col <- cols :: col.name != "") <==> forall k | 0 <= k < |cols| :: cols[k].name != "";
    assert (forall id <- ids :: named(id) != "") <==> forall k | 0 <= k < |ids| :: named(ids[k]) != "";
  }

  lemma NamesTold(first: Option<Dialect>, trace: seq<Event>, form: Form)
    requires form == FormTold(first, trace)
    ensures (forall col <- form.columns :: col.name != "") <==> forall id <- IdsTold(first, trace) :: NameTold(first, trace, id) != ""
  {
    var ids := IdsTold(first, trace);
    ColumnsTold(first, trace, ids);
    NamesFollow(ids, form.columns, (id: nat) => NameTold(first, trace, id));
  }

  lemma CompleteAsTold(first: Option<Dialect>, trace: seq<Event>, form: Form)
    requires GoodForm(form) && form == FormTold(first, trace)
    ensures Complete(form) <==> CompleteTold(first, trace)
  {
    NamesAreWords(form);
    CompleteIff(form);
    NamesTold(first, trace, form);
  }

  lemma ColumnsTold(first: Option<Dialect>, trace: seq<Event>, ids: seq<nat>)
    requires ids == IdsTold(first, trace)
    ensures |FormTold(first, trace).columns| == |ids|
    ensures forall k | 0 <= k < |ids| :: FormTold(first, trace).columns[k] == ColumnTold(first, trace, ids[k])
  {
  }

  lemma OneColumn(first: Option<Dialect>, trace: seq<Event>)
    requires trace != [] && StartsOver(first, trace)
    ensures FormTold(first, trace).columns == [DefaultColumn(EngineOf(DbTold(first, trace)))]
  {
    ColumnBegins(first, trace);
    ColumnsTold(first, trace, [|trace|]);
  }

  lemma StepStartsOver(first: Option<Dialect>, trace: seq<Event>, form: Form)
    requires trace != [] && form == FormTold(first, Front(trace)) && Enabled(form, Last(trace)) && GoodForm(form)
    requires StartsOver(first, trace)
    ensures Step(form, Last(trace)) == FormTold(first, trace)
  {
    OneColumn(first, trace);
    if Last(trace).Create? {
      CompleteAsTold(first, Front(trace), form);
    }
  }

  lemma NamesNext(first: Option<Dialect>, trace: seq<Event>)
    requires trace != [] && !StartsOver(first, trace)
    ensures DbTold(first, trace) == DbTold(first, Front(trace))
    ensures TableTold(first, trace) ==
      if Last(trace).NameTable? then Sanitize(Last(trace).input) else TableTold(first, Front(trace))
  {
  }

  /** The columns after a step that drops none but the one it names. */
  function StepColumns(cols: seq<Column>, e: Event, engine: Engine): seq<Column>
    requires engine.types != []
  {
    if e.Add? then cols + [NewColumn(engine)]
    else if e.Remove? && |cols| > 1 && e.index < |cols| then cols[..e.index] + cols[e.index + 1..]
    else if IsClick(e) && e.index < |cols| then cols[e.index := Clicked(cols[e.index], e, engine.keyType)]
    else cols
  }

  lemma StepIsClick(form: Form, e: Event)
    requires Enabled(form, e) && IsClick(e)
    ensures Step(form, e) == form.(columns := form.columns[e.index := Clicked(form.columns[e.index], e, form.Engine().keyType)])
  {
  }

  lemma StepIsColumns(form: Form, e: Event)
    requires Enabled(form, e) && form.Engine().types != []
    requires (e.Connect? ==> e.dbType == form.dbType) && (e.Create? ==> !Complete(form))
    ensures Step(form, e) ==
      form.(tableName := if e.NameTable? then Sanitize(e.input) else form.tableName,
            columns := StepColumns(form.columns, e, form.Engine()))
  {
    if IsClick(e) {
      StepIsClick(form, e);
    }
  }

  lemma ColumnsNext(first: Option<Dialect>, trace: seq<Event>, cols: seq<Column>)
    requires trace != [] && !StartsOver(first, trace) && cols == FormTold(first, Front(trace)).columns
    requires EngineOf(DbTold(first, trace)).types != []
    ensures FormTold(first, trace).columns == StepColumns(cols, Last(trace), EngineOf(DbTold(first, trace)))
  {
    var ids, e, engine := IdsTold(first, Front(trace)), Last(trace), EngineOf(DbTold(first, trace));
    var now, cols' := NextIds(ids, e, false, |trace|), FormTold(first, trace).columns;
    ColumnsTold(first, Front(trace), ids);
    ColumnsTold(first, trace, now);
    IdsAreDistinct(first, Front(trace));
    ghost var told := (id: nat) => ColumnTold(first, trace, id);
    forall k | 0 <= k < |ids|
      ensures told(ids[k]) == if IsClick(e) && e.index == k then Clicked(cols[k], e, engine.keyType) else cols[k]
    {
      ColumnsKept(first, trace, k);
    }
    if e.Add? {
      ColumnBegins(first, trace);
      Begins(DbTold(first, trace));
    }
    ColumnsFollow(ids, now, cols, cols', e, |trace|, engine, told);
  }

  /** Columns that follow their ids follow the step. */
  lemma ColumnsFollow(ids: seq<nat>, now: seq<nat>, cols: seq<Column>, cols': seq<Column>, e: Event, id: nat, engine: Engine,
                      told: nat -> Column)
    requires engine.types != [] && Distinct(ids) && now == NextIds(ids, e, false, id)
    requires |cols| == |ids| && |cols'| == |now| && forall k | 0 <= k < |now| :: cols'[k] == told(now[k])
    requires forall k | 0 <= k < |ids| ::
               told(ids[k]) == if IsClick(e) && e.index == k then Clicked(cols[k], e, engine.keyType) else cols[k]
    requires e.Add? ==> told(id) == NewColumn(engine)
    ensures cols' == StepColumns(cols, e, engine)
  {
    if e.Remove? && |ids| > 1 && e.index < |ids| {
      WithoutAt(ids, e.index);
    }
  }

  lemma StepKeeps(first: Option<Dialect>, trace: seq<Event>, form: Form)
    requires trace != [] && form == FormTold(first, Front(trace)) && Enabled(form, Last(trace)) && GoodForm(form)
    requires !StartsOver(first, trace)
    ensures Step(form, Last(trace)) == FormTold(first, trace)
  {
    EnginesAreGood(form.dbType);
    NamesNext(first, trace);
    CompleteAsTold(first, Front(trace), form);
    StepIsColumns(form, Last(trace));
    ColumnsNext(first, trace, form.columns);
  }

  /**
   After any clicks the form holds exactly the columns that were added and not removed since the
   engine last changed or a table was last created, in order, and each of their controls shows the
   last click on it, or else what such a column begins with.
   */
  lemma {:induction false} FormIsAsTold(first: Option<Dialect>, trace: seq<Event>)
    requires Valid(first, trace)
    ensures Exec(first, trace) == FormTold(first, trace)
  {
    if trace == [] {
      FreshIsTold(first);
    } else {
      var form := Exec(first, Front(trace));
      FormIsAsTold(first, Front(trace));
      FormStaysGood(first, Front(trace));
      if StartsOver(first, trace) {
        StepStartsOver(first, trace, form);
      } else {
        StepKeeps(first, trace, form);
      }
    }
  }

  lemma FreshIsTold(first: Option<Dialect>)
    ensures Start(first) == FormTold(first, [])
  {
    Begins(first);
    assert ColumnTold(first, [], 0) == DefaultColumn(EngineOf(first));
  }
}
