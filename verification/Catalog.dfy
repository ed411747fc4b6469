/**
 The catalog reads of `useConnectionManager`, guarded by `useReadGeneration`: which answer
 the object list shows, however late and in whatever order reads settle.
 */
module Catalog {
  import opened Options

  type Object = string

  /** A connection; `deferred` is its `skipObjectScan`. */
  datatype Conn = Conn(id: string, skipObjectScan: bool)

  /** What a read comes to: the objects, nothing declared to list, or a failure. */
  datatype Outcome = Listed(objects: seq<Object>) | NothingToList | Failed(message: string)
  {
    function Objects(): seq<Object> { if Listed? then objects else [] }
    function Error(): Option<string> { if Failed? then Some(message) else None }
  }

  /** `useReadGeneration`: the newest read or supersession, as a counter. */
  class ReadGeneration {
    var current: nat

    constructor ()
      ensures current == 0
    {
      current := 0;
    }

    method Begin() returns (generation: nat)
      modifies this
      ensures current == old(current) + 1 && generation == current
    {
      current := current + 1;
      generation := current;
    }

    /** The predicate `begin` returns. */
    method IsCurrent(generation: nat) returns (b: bool)
      ensures b <==> current == generation
    {
      b := current == generation;
    }

    method Supersede()
      modifies this
      ensures current == old(current) + 1
    {
      current := current + 1;
    }
  }

  // ---------------------------------------------------------------------------
  // Steps

  /** A `readSchema` still waiting for its answer. */
  datatype Read = Read(generation: nat, conn: Conn)

  datatype State = State(
    current: nat,
    schema: seq<Object>,
    schemaError: Option<string>,
    isLoadingSchema: bool,
    scanRequested: Option<string>,
    inFlight: set<Read>)

  datatype Event =
    | Fetch(conn: Conn)      // fetchSchema
    | Load(conn: Conn)       // loadObjects, pressed under this connection
    | Settle(read: Read, outcome: Outcome)

  predicate ScanDeferred(conn: Conn, scanRequested: Option<string>) {
    conn.skipObjectScan && scanRequested != Some(conn.id)
  }

  function BeginRead(s: State, conn: Conn): State {
    s.(current := s.current + 1, isLoadingSchema := true, inFlight := s.inFlight + {Read(s.current + 1, conn)})
  }

  function Step(s: State, e: Event): State {
    match e
    case Fetch(conn) =>
      if ScanDeferred(conn, s.scanRequested) then
        s.(current := s.current + 1, schema := [], schemaError := None, isLoadingSchema := false)
      else BeginRead(s, conn)
    case Load(conn) => BeginRead(s.(scanRequested := Some(conn.id)), conn)
    case Settle(read, outcome) =>
      var s' := s.(inFlight := s.inFlight - {read});
      if s.current != read.generation then s'
      else s'.(schema := outcome.Objects(), schemaError := outcome.Error(), isLoadingSchema := false)
  }

  const START := State(0, [], None, false, None, {})

  predicate Enabled(s: State, e: Event) {
    e.Settle? ==> e.read in s.inFlight
  }

  function Exec(trace: seq<Event>): State {
    if trace == [] then START else Step(Exec(trace[..|trace| - 1]), trace[|trace| - 1])
  }

  ghost predicate Valid(trace: seq<Event>) {
    trace == [] || (Valid(trace[..|trace| - 1]) && Enabled(Exec(trace[..|trace| - 1]), trace[|trace| - 1]))
  }

  // ---------------------------------------------------------------------------
  // What the reader asked for last, read off the trace

  /** `asks` numbers the requests; `answer` is the newest one's, once there is one. */
  datatype Ledger = Ledger(
    asks: nat,
    requested: Option<string>,  // the deferred connection asked for by hand
    asked: Option<Conn>,        // the connection last asked for
    answer: Option<Outcome>,    // what that request came to; a deferral is nothing to list
    shown: Outcome)             // the last answer of a request that was the newest at the time

  function Note(l: Ledger, e: Event): Ledger {
    match e
    case Fetch(conn) =>
      if ScanDeferred(conn, l.requested)
      then l.(asks := l.asks + 1, asked := Some(conn), answer := Some(NothingToList), shown := NothingToList)
      else l.(asks := l.asks + 1, asked := Some(conn), answer := None)
    case Load(conn) => l.(asks := l.asks + 1, requested := Some(conn.id), asked := Some(conn), answer := None)
    case Settle(read, outcome) =>
      if read.generation == l.asks then l.(answer := Some(outcome), shown := outcome) else l
  }

  function LedgerOf(trace: seq<Event>): Ledger {
    if trace == [] then Ledger(0, None, None, Some(NothingToList), NothingToList)
    else Note(LedgerOf(trace[..|trace| - 1]), trace[|trace| - 1])
  }

  ghost predicate Inv(s: State, l: Ledger) {
    && s.current == l.asks
    && s.scanRequested == l.requested
    && s.schema == l.shown.Objects()
    && s.schemaError == l.shown.Error()
    && (s.isLoadingSchema <==> l.answer.None?)
    && (l.answer.Some? ==> l.answer == Some(l.shown))
    && (l.answer.None? ==> l.asked.Some? && Read(s.current, l.asked.value) in s.inFlight)
    && (forall r <- s.inFlight :: r.generation <= s.current)
    && (forall r <- s.inFlight :: r.generation == s.current ==> l.answer.None? && l.asked == Some(r.conn))
  }

  lemma {:induction false} Reachable(trace: seq<Event>)
    requires Valid(trace)
    ensures Inv(Exec(trace), LedgerOf(trace))
  {
    if trace != [] {
      Reachable(trace[..|trace| - 1]);
    }
  }

  /**
   For every interleaving: the spinner is on exactly while the newest request is a read
   without an answer; when it is off, the list and the error are exactly the answer to the
   connection last asked for; and an error always stands beside an empty list.
   */
  lemma CatalogShowsTheNewest(trace: seq<Event>)
    requires Valid(trace)
    ensures
      var s, l := Exec(trace), LedgerOf(trace);
      && (s.isLoadingSchema <==> exists r <- s.inFlight :: r.generation == s.current)
      && (s.isLoadingSchema <==> l.answer.None?)
      && (!s.isLoadingSchema ==> s.schema == l.answer.value.Objects() && s.schemaError == l.answer.value.Error())
      && (s.isLoadingSchema ==> l.asked.Some? && Read(s.current, l.asked.value) in s.inFlight)
      && (s.schemaError.Some? ==> s.schema == [])
  {
    Reachable(trace);
  }

  /** A read that is not the newest request, superseded by any read or by a deferral, changes nothing when it settles. */
  lemma SupersededReadIsSilent(trace: seq<Event>, read: Read, outcome: Outcome)
    requires Valid(trace) && read in Exec(trace).inFlight
    requires read.generation != LedgerOf(trace).asks
    ensures Step(Exec(trace), Settle(read, outcome)) == Exec(trace).(inFlight := Exec(trace).inFlight - {read})
  {
    Reachable(trace);
  }

  // ---------------------------------------------------------------------------
  // The same, said of the last request in a trace

  /** The connection objects were last loaded for by hand. */
  function LastLoaded(trace: seq<Event>): Option<Conn> {
    if trace == [] then None
    else if trace[|trace| - 1].Load? then Some(trace[|trace| - 1].conn)
    else LastLoaded(trace[..|trace| - 1])
  }

  /** A read that a connection puts off, unless its objects were the last to be loaded by hand. */
  predicate PutOff(trace: seq<Event>, e: Event) {
    && e.Fetch? && e.conn.skipObjectScan
    && (LastLoaded(trace) == None || LastLoaded(trace).value.id != e.conn.id)
  }

  lemma {:induction false} LoadedIsRequested(trace: seq<Event>)
    ensures Exec(trace).scanRequested == if LastLoaded(trace).Some? then Some(LastLoaded(trace).value.id) else None
  {
    if trace != [] {
      LoadedIsRequested(trace[..|trace| - 1]);
    }
  }

  lemma PutOffIff(trace: seq<Event>, e: Event)
    ensures PutOff(trace, e) <==> e.Fetch? && ScanDeferred(e.conn, Exec(trace).scanRequested)
  {
    LoadedIsRequested(trace);
  }

  predicate OnlySettles(trace: seq<Event>) {
    forall e <- trace :: e.Settle?
  }

  /** Answers to earlier requests, however many arrive, leave a settled catalog alone. */
  lemma {:induction false} SettledStaysSettled(trace: seq<Event>, late: seq<Event>)
    requires Valid(trace + late) && OnlySettles(late)
    requires Valid(trace) && !Exec(trace).isLoadingSchema
    ensures Exec(trace + late) == Exec(trace).(inFlight := Exec(trace + late).inFlight)
  {
    if late == [] {
      assert trace + late == trace;
    } else {
      var was, last := late[..|late| - 1], late[|late| - 1];
      assert (trace + late)[..|trace + late| - 1] == trace + was && (trace + late)[|trace + late| - 1] == last;
      assert last in late && forall e <- was :: e in late;
      SettledStaysSettled(trace, was);
      Reachable(trace + was);
      assert Exec(trace + late) == Step(Exec(trace + was), last);
    }
  }

  /** A last request that is deferred leaves nothing on screen, whatever was still on its way. */
  lemma DeferralClearsTheList(trace: seq<Event>, conn: Conn, late: seq<Event>)
    requires Valid(trace + [Fetch(conn)] + late)
    requires PutOff(trace, Fetch(conn)) && OnlySettles(late)
    ensures
      var s := Exec(trace + [Fetch(conn)] + late);
      s.schema == [] && s.schemaError == None && !s.isLoadingSchema
  {
    PutOffIff(trace, Fetch(conn));
    ValidPrefix(trace + [Fetch(conn)], late);
    ExecLast(trace, Fetch(conn));
    SettledStaysSettled(trace + [Fetch(conn)], late);
  }

  /** Until the newest read settles, the answers to the others change nothing. */
  lemma {:induction false} LateAnswersAreIgnored(trace: seq<Event>, late: seq<Event>, newest: Read)
    requires Valid(trace + late) && OnlySettles(late) && Valid(trace)
    requires newest in Exec(trace).inFlight && newest.generation == Exec(trace).current
    requires forall e <- late :: e.read != newest
    ensures Exec(trace + late) == Exec(trace).(inFlight := Exec(trace + late).inFlight)
    ensures newest in Exec(trace + late).inFlight
  {
    if late == [] {
      assert trace + late == trace;
    } else {
      var was, last := late[..|late| - 1], late[|late| - 1];
      assert (trace + late)[..|trace + late| - 1] == trace + was && (trace + late)[|trace + late| - 1] == last;
      assert last in late && forall e <- was :: e in late;
      LateAnswersAreIgnored(trace, was, newest);
      Reachable(trace + was);
      assert Exec(trace + late) == Step(Exec(trace + was), last);
    }
  }

  lemma ExecLast(trace: seq<Event>, e: Event)
    ensures Exec(trace + [e]) == Step(Exec(trace), e)
  {
    assert (trace + [e])[..|trace|] == trace;
  }

  lemma {:induction false} ValidPrefix(trace: seq<Event>, late: seq<Event>)
    requires Valid(trace + late)
    ensures Valid(trace)
  {
    if late == [] {
      assert trace + late == trace;
    } else {
      assert (trace + late)[..|trace + late| - 1] == trace + late[..|late| - 1];
      ValidPrefix(trace, late[..|late| - 1]);
    }
  }

  /** The read that request `e` starts after `trace`. */
  function ReadOf(trace: seq<Event>, e: Event): Read
    requires !e.Settle?
  {
    Read(Exec(trace).current + 1, e.conn)
  }

  /** Until the last request is answered, the screen stays as it was when it was made, spinner on. */
  lemma LastRequestPends(trace: seq<Event>, e: Event, early: seq<Event>)
    requires !e.Settle? && !PutOff(trace, e)
    requires OnlySettles(early) && Valid(trace + [e] + early)
    requires forall x <- early :: x.read != ReadOf(trace, e)
    ensures
      var s := Exec(trace + [e] + early);
      && s.schema == Exec(trace).schema && s.schemaError == Exec(trace).schemaError && s.isLoadingSchema
      && s.current == ReadOf(trace, e).generation
  {
    PutOffIff(trace, e);
    ValidPrefix(trace + [e], early);
    ExecLast(trace, e);
    LateAnswersAreIgnored(trace + [e], early, ReadOf(trace, e));
  }

  /**
   The last request decides: its answer is what is on screen, whichever answers to earlier
   requests came before it (`early`) or after it (`late`).
   */
  lemma LastRequestWins(trace: seq<Event>, e: Event, early: seq<Event>, outcome: Outcome, late: seq<Event>)
    requires !e.Settle? && !PutOff(trace, e)
    requires OnlySettles(early) && OnlySettles(late)
    requires Valid(trace + [e] + early + [Settle(ReadOf(trace, e), outcome)] + late)
    requires forall x <- early :: x.read != ReadOf(trace, e)
    ensures
      var s := Exec(trace + [e] + early + [Settle(ReadOf(trace, e), outcome)] + late);
      s.schema == outcome.Objects() && s.schemaError == outcome.Error() && !s.isLoadingSchema
  {
    var asked := trace + [e] + early;
    var answer := Settle(ReadOf(trace, e), outcome);
    ValidPrefix(asked + [answer], late);
    ValidPrefix(asked, [answer]);
    LastRequestPends(trace, e, early);
    ExecLast(asked, answer);
    SettledStaysSettled(asked + [answer], late);
  }

  // ---------------------------------------------------------------------------
  // The hook

  class ConnectionCatalog {
    const generations: ReadGeneration
    var schema: seq<Object>
    var schemaError: Option<string>
    var isLoadingSchema: bool
    var scanRequested: Option<string>
    /** The reads whose closure is waiting. */
    ghost var waiting: set<Read>

    ghost function Now(): State
      reads this, generations
    {
      State(generations.current, schema, schemaError, isLoadingSchema, scanRequested, waiting)
    }

    constructor ()
      ensures Now() == START && fresh(generations)
    {
      generations := new ReadGeneration();
      schema, schemaError, isLoadingSchema, scanRequested := [], None, false, None;
      waiting := {};
    }

    /** `readSchema` up to its first await. */
    method ReadSchema(conn: Conn) returns (read: Read)
      modifies this, generations
      ensures Now() == BeginRead(old(Now()), conn) && read == Read(generations.current, conn)
    {
      var generation := generations.Begin();
      isLoadingSchema := true;
      read := Read(generation, conn);
      waiting := waiting + {read};
    }

    method FetchSchema(conn: Conn)
      modifies this, generations
      ensures Now() == Step(old(Now()), Fetch(conn))
    {
      if ScanDeferred(conn, scanRequested) {
        generations.Supersede();
        schema := [];
        schemaError := None;
        isLoadingSchema := false;
        return;
      }
      var read := ReadSchema(conn);
    }

    /** `activeConnection` is null where no connection is open. */
    method LoadObjects(activeConnection: Option<Conn>)
      modifies this, generations
      ensures Now() == if activeConnection.Some? then Step(old(Now()), Load(activeConnection.value)) else old(Now())
    {
      if activeConnection.None? { return; }
      scanRequested := Some(activeConnection.value.id);
      var read := ReadSchema(activeConnection.value);
    }

    /** The rest of `readSchema`: every write asks whether this read is still current. */
    method OnSettled(read: Read, outcome: Outcome) returns (toasted: bool)
      modifies this
      ensures Now() == Step(old(Now()), Settle(read, outcome))
      ensures toasted <==> outcome.Failed? && read.generation == generations.current
    {
      toasted := false;
      waiting := waiting - {read};
      var isCurrent := generations.IsCurrent(read.generation);
      match outcome {
        case NothingToList =>
          if isCurrent {
            schema := [];
            schemaError := None;
          }
        case Listed(objects) =>
          if !isCurrent { return; }
          schema := objects;
          schemaError := None;
        case Failed(message) =>
          if !isCurrent { return; }
          schema := [];
          schemaError := Some(message);
          toasted := true;
      }
      if isCurrent {
        isLoadingSchema := false;
      }
    }
  }
}
