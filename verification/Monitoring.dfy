/**
 `useMonitoringData`: whose samples the chart shows. Renders, effects, requests and replies
 come in any order, replies to aborted requests included.
 */
module Monitoring {
  import opened Options
  import opened TimeSeries

  const CAPACITY := 120

  /** A connection as a prop: `revision` tells apart two objects with one id. */
  datatype Conn = Conn(id: string, revision: nat)

  /** `seqNo` numbers the visits to a connection; leaving and returning is a new visit. */
  datatype Selection = Selection(id: Option<string>, seqNo: nat)

  datatype Request = Request(n: nat, conn: Conn, selection: nat)

  datatype Point = Point(request: Request, sample: string)

  datatype History = History(selection: nat, points: seq<Point>)

  datatype State = State(
    connection: Option<Conn>,     // the prop of the latest render
    selection: Selection,
    connectionRef: Option<Conn>,
    selectionRef: nat,
    mounted: bool,
    next: nat,
    pending: set<Request>,
    aborted: set<nat>,
    controller: Option<nat>,
    loading: bool,
    error: Option<string>,
    data: Option<Point>,
    owner: Option<nat>,           // the selection the buffer holds points for
    pushed: seq<Point>,           // what was pushed into the buffer since it was cleared
    history: Option<History>)
  {
    /** The `history` the hook returns. */
    function Exposed(): seq<Point> {
      if history.Some? && history.value.selection == selection.seqNo then history.value.points else []
    }

    /** The `data` the hook returns. */
    function ExposedData(): Option<Point> {
      if connection.None? then None else data
    }
  }

  datatype Event =
    | Render(connection: Option<Conn>)
    | Effects
    | Fetch                                 // refresh, the interval, or after maintenance
    | Reply(request: Request, sample: string)
    | Fail(request: Request, message: string)
    | Cancelled(request: Request)           // the AbortError of an aborted request
    | Unmount

  // ---------------------------------------------------------------------------
  // Steps

  function IdOf(connection: Option<Conn>): Option<string> {
    if connection.Some? then Some(connection.value.id) else None
  }

  function Abort(s: State): State {
    if s.controller.Some? then s.(aborted := s.aborted + {s.controller.value}) else s
  }

  function NewRequest(s: State): Request
    requires s.connectionRef.Some?
  {
    Request(s.next, s.connectionRef.value, s.selectionRef)
  }

  function BeginFetch(s: State): State {
    if s.connectionRef.None? then s else
    Abort(s).(
      controller := Some(s.next), next := s.next + 1, pending := s.pending + {NewRequest(s)},
      loading := true, error := None)
  }

  function Renumber(selection: Selection, id: Option<string>): Selection {
    if selection.id != id then Selection(id, selection.seqNo + 1) else selection
  }

  /** The effects of a commit, in declaration order: the references, then the fetch where the connection changed. */
  function RunEffects(s: State): State {
    var s' := s.(selectionRef := s.selection.seqNo, connectionRef := s.connection);
    if s.connection == s.connectionRef then s'
    else BeginFetch(if s.connectionRef.Some? then Abort(s') else s')
  }

  function Keep(s: State, p: Point): State {
    var pushed := (if s.owner == Some(p.request.selection) then s.pushed else []) + [p];
    s.(owner := Some(p.request.selection), pushed := pushed,
       history := Some(History(p.request.selection, Newest(pushed, CAPACITY))))
  }

  function Step(s: State, e: Event): State {
    match e
    case Render(connection) =>
      s.(connection := connection, selection := Renumber(s.selection, IdOf(connection)))
    case Effects => RunEffects(s)
    case Fetch => BeginFetch(s)
    case Reply(request, sample) =>
      var s' := s.(pending := s.pending - {request});
      if !s.mounted then s'
      else Keep(s'.(data := Some(Point(request, sample)), error := None, loading := false), Point(request, sample))
    case Fail(request, message) =>
      var s' := s.(pending := s.pending - {request});
      if !s.mounted then s' else s'.(error := Some(message), loading := false)
    case Cancelled(request) =>
      var s' := s.(pending := s.pending - {request});
      if !s.mounted then s' else s'.(loading := false)
    case Unmount =>
      (if s.connectionRef.Some? then Abort(s) else s).(mounted := false)
  }

  predicate Enabled(s: State, e: Event) {
    match e
    case Render(_) => s.mounted
    case Effects => s.mounted
    case Fetch => true
    case Reply(request, _) => request in s.pending
    case Fail(request, _) => request in s.pending
    case Cancelled(request) => request in s.pending && request.n in s.aborted
    case Unmount => s.mounted
  }

  /** Mounted with connection `first`, before the first effects have run. */
  function Start(first: Option<Conn>): State {
    State(first, Selection(IdOf(first), 0), None, 0, true, 0, {}, {}, None, false, None, None, None, [], None)
  }

  function Exec(first: Option<Conn>, trace: seq<Event>): State {
    if trace == [] then Start(first) else Step(Exec(first, trace[..|trace| - 1]), trace[|trace| - 1])
  }

  ghost predicate Valid(first: Option<Conn>, trace: seq<Event>) {
    trace == [] || (
      && Valid(first, trace[..|trace| - 1])
      && Enabled(Exec(first, trace[..|trace| - 1]), trace[|trace| - 1]))
  }

  // ---------------------------------------------------------------------------
  // What is on screen, read off the trace alone

  function NoteVisit(visits: seq<Option<string>>, e: Event): (r: seq<Option<string>>)
    requires |visits| > 0
    ensures |r| > 0
  {
    if e.Render? && IdOf(e.connection) != visits[|visits| - 1] then visits + [IdOf(e.connection)] else visits
  }

  /** The connections visited, one entry a visit. */
  function Visits(first: Option<Conn>, trace: seq<Event>): (r: seq<Option<string>>)
    ensures |r| > 0
  {
    if trace == [] then [IdOf(first)] else NoteVisit(Visits(first, trace[..|trace| - 1]), trace[|trace| - 1])
  }

  function NoteReply(landed: seq<Point>, e: Event): seq<Point> {
    if e.Reply? then landed + [Point(e.request, e.sample)] else landed
  }

  /** The replies that landed while mounted, in order of arrival. */
  function Landed(trace: seq<Event>): seq<Point> {
    if trace == [] then [] else
    var was := trace[..|trace| - 1];
    if Unmount in was then Landed(was) else NoteReply(Landed(was), trace[|trace| - 1])
  }

  /** The longest run of points at the end that were requested during one visit. */
  function Streak(points: seq<Point>, visit: nat): (r: seq<Point>)
    ensures forall p <- r :: p.request.selection == visit
    ensures |r| <= |points| && r == points[|points| - |r|..]
    ensures |r| < |points| ==> points[|points| - |r| - 1].request.selection != visit
  {
    if points == [] || points[|points| - 1].request.selection != visit then []
    else Streak(points[..|points| - 1], visit) + [points[|points| - 1]]
  }

  // ---------------------------------------------------------------------------
  // The invariant

  ghost predicate RefsInv(s: State, visits: seq<Option<string>>) {
    && |visits| == s.selection.seqNo + 1
    && visits[s.selection.seqNo] == s.selection.id == IdOf(s.connection)
    && s.selectionRef <= s.selection.seqNo
    && (s.connectionRef.Some? ==> visits[s.selectionRef] == IdOf(s.connectionRef))
  }

  ghost predicate Issued(r: Request, visits: seq<Option<string>>) {
    r.selection < |visits| && visits[r.selection] == Some(r.conn.id)
  }

  ghost predicate AllIssued(s: State, visits: seq<Option<string>>, landed: seq<Point>) {
    (forall r <- s.pending :: Issued(r, visits)) && (forall p <- landed :: Issued(p.request, visits))
  }

  /** What is shown and kept, in terms of the replies that landed. */
  ghost predicate Showing(s: State, landed: seq<Point>) {
    if landed == [] then s.data == None && s.owner == None && s.pushed == [] && s.history == None
    else
      var last := landed[|landed| - 1];
      var visit := last.request.selection;
      && s.data == Some(last) && s.owner == Some(visit) && s.pushed == Streak(landed, visit)
      && s.history == Some(History(visit, Newest(s.pushed, CAPACITY)))
  }

  ghost predicate PointsInv(s: State, visits: seq<Option<string>>, landed: seq<Point>) {
    AllIssued(s, visits, landed) && Showing(s, landed)
  }

  /** Requests have their own numbers, and every pending one but the controller's is aborted. */
  ghost predicate Tracked(pending: set<Request>, next: nat, controller: Option<nat>, aborted: set<nat>) {
    && (forall r <- pending :: r.n < next)
    && (controller.Some? ==> controller.value < next)
    && (forall n <- aborted :: n < next)
    && (forall q, r | q in pending && r in pending && q.n == r.n :: q == r)
    && (forall r <- pending :: r.n in aborted || controller == Some(r.n))
  }

  ghost predicate RequestsInv(s: State) {
    Tracked(s.pending, s.next, s.controller, s.aborted)
  }

  lemma StepMounted(s: State, e: Event)
    ensures Step(s, e).mounted <==> s.mounted && e != Unmount
  {
  }

  lemma {:induction false} MountedUntilUnmount(first: Option<Conn>, trace: seq<Event>)
    ensures Exec(first, trace).mounted <==> Unmount !in trace
  {
    if trace != [] {
      var was, e := trace[..|trace| - 1], trace[|trace| - 1];
      MountedUntilUnmount(first, was);
      StepMounted(Exec(first, was), e);
      assert trace == was + [e];
    }
  }

  lemma StepRefs(s: State, e: Event, visits: seq<Option<string>>)
    requires |visits| > 0 && RefsInv(s, visits)
    ensures RefsInv(Step(s, e), NoteVisit(visits, e))
  {
  }

  lemma AbortRequests(s: State)
    requires RequestsInv(s)
    ensures RequestsInv(Abort(s))
  {
  }

  lemma FetchRequests(s: State)
    requires RequestsInv(s)
    ensures RequestsInv(BeginFetch(s))
  {
    AbortRequests(s);
  }

  lemma SettleRequests(s: State, e: Event)
    requires RequestsInv(s) && (e.Reply? || e.Fail? || e.Cancelled?)
    ensures RequestsInv(Step(s, e))
  {
    var t := Step(s, e);
    assert t.pending <= s.pending && t.next == s.next && t.controller == s.controller && t.aborted == s.aborted;
  }

  lemma EffectsRequests(s: State)
    requires RequestsInv(s)
    ensures RequestsInv(RunEffects(s))
  {
    var t := s.(selectionRef := s.selection.seqNo, connectionRef := s.connection);
    AbortRequests(t);
    FetchRequests(t);
    FetchRequests(Abort(t));
  }

  lemma StepRequests(s: State, e: Event)
    requires RequestsInv(s) && Enabled(s, e)
    ensures RequestsInv(Step(s, e))
  {
    if e.Fetch? {
      FetchRequests(s);
    } else if e.Effects? {
      EffectsRequests(s);
    } else if e.Reply? || e.Fail? || e.Cancelled? {
      SettleRequests(s, e);
    } else {
      AbortRequests(s);
    }
  }

  lemma {:induction false} StreakGrows(landed: seq<Point>, p: Point)
    ensures Streak(landed + [p], p.request.selection) == Streak(landed, p.request.selection) + [p]
  {
    assert (landed + [p])[..|landed|] == landed;
  }

  lemma FetchKeepsPoints(s: State)
    ensures SamePoints(s, BeginFetch(s)) && BeginFetch(s).pending <= s.pending + NewRequests(s)
  {
  }

  ghost predicate SamePoints(s: State, t: State) {
    t.data == s.data && t.owner == s.owner && t.pushed == s.pushed && t.history == s.history
  }

  ghost function NewRequests(s: State): set<Request> {
    if s.connectionRef.Some? then {NewRequest(s)} else {}
  }

  /** Only a reply touches the points; only a fetch adds a request, and under the selection of its connection. */
  lemma StepKeepsPoints(s: State, e: Event)
    requires !(e.Reply? && s.mounted)
    ensures SamePoints(s, Step(s, e))
    ensures Step(s, e).pending <= s.pending +
      if e.Fetch? then NewRequests(s)
      else if e.Effects? then NewRequests(s.(selectionRef := s.selection.seqNo, connectionRef := s.connection))
      else {}
  {
    if e.Fetch? {
      FetchKeepsPoints(s);
    } else if e.Effects? {
      var s' := s.(selectionRef := s.selection.seqNo, connectionRef := s.connection);
      FetchKeepsPoints(if s.connectionRef.Some? then Abort(s') else s');
    }
  }

  lemma StepIssued(s: State, e: Event, visits: seq<Option<string>>)
    requires |visits| > 0 && RefsInv(s, visits) && (forall r <- s.pending :: Issued(r, visits))
    requires !(e.Reply? && s.mounted)
    ensures forall r <- Step(s, e).pending :: Issued(r, NoteVisit(visits, e))
  {
    StepKeepsPoints(s, e);
  }

  lemma ReplyWrites(s: State, e: Event)
    requires e.Reply? && s.mounted
    ensures
      var p, t := Point(e.request, e.sample), Step(s, e);
      && t.pending == s.pending - {e.request} && t.data == Some(p) && t.owner == Some(p.request.selection)
      && t.pushed == (if s.owner == Some(p.request.selection) then s.pushed else []) + [p]
      && t.history == Some(History(p.request.selection, Newest(t.pushed, CAPACITY)))
  {
  }

  lemma IssuedGrow(s: State, t: State, p: Point, visits: seq<Option<string>>, landed: seq<Point>)
    requires AllIssued(s, visits, landed) && p.request in s.pending && t.pending <= s.pending
    ensures AllIssued(t, visits, landed + [p])
  {
  }

  lemma ShowingGrows(s: State, t: State, p: Point, landed: seq<Point>)
    requires Showing(s, landed)
    requires t.data == Some(p) && t.owner == Some(p.request.selection)
    requires t.pushed == (if s.owner == Some(p.request.selection) then s.pushed else []) + [p]
    requires t.history == Some(History(p.request.selection, Newest(t.pushed, CAPACITY)))
    ensures Showing(t, landed + [p])
  {
    PushedIsStreak(landed, p);
    assert (landed + [p])[|landed|] == p;
  }

  /** The streak at the end goes on where the new point is of the same visit, and starts anew where it is not. */
  lemma PushedIsStreak(landed: seq<Point>, p: Point)
    ensures
      var visit := p.request.selection;
      Streak(landed + [p], visit) ==
        (if landed != [] && landed[|landed| - 1].request.selection == visit
         then Streak(landed, landed[|landed| - 1].request.selection) else []) + [p]
  {
    StreakGrows(landed, p);
    assert landed != [] && landed[|landed| - 1].request.selection != p.request.selection
      ==> Streak(landed, p.request.selection) == [];
  }

  lemma ReplyKeepsPoints(s: State, e: Event, visits: seq<Option<string>>, landed: seq<Point>)
    requires PointsInv(s, visits, landed) && Enabled(s, e) && e.Reply? && s.mounted
    ensures PointsInv(Step(s, e), visits, NoteReply(landed, e))
  {
    ReplyWrites(s, e);
    IssuedGrow(s, Step(s, e), Point(e.request, e.sample), visits, landed);
    ShowingGrows(s, Step(s, e), Point(e.request, e.sample), landed);
  }

  lemma PointsCarryOver(s: State, t: State, visits: seq<Option<string>>, more: seq<Option<string>>, landed: seq<Point>)
    requires PointsInv(s, visits, landed) && SamePoints(s, t) && visits <= more
    requires forall r <- t.pending :: Issued(r, more)
    ensures PointsInv(t, more, landed)
  {
  }

  lemma StepPoints(s: State, e: Event, visits: seq<Option<string>>, landed: seq<Point>)
    requires |visits| > 0 && RefsInv(s, visits) && PointsInv(s, visits, landed) && Enabled(s, e)
    ensures PointsInv(Step(s, e), NoteVisit(visits, e), if s.mounted then NoteReply(landed, e) else landed)
  {
    if e.Reply? && s.mounted {
      ReplyKeepsPoints(s, e, visits, landed);
    } else {
      StepKeepsPoints(s, e);
      StepIssued(s, e, visits);
      PointsCarryOver(s, Step(s, e), visits, NoteVisit(visits, e), landed);
    }
  }

  lemma {:induction false} Reachable(first: Option<Conn>, trace: seq<Event>)
    requires Valid(first, trace)
    ensures RefsInv(Exec(first, trace), Visits(first, trace))
    ensures PointsInv(Exec(first, trace), Visits(first, trace), Landed(trace))
    ensures RequestsInv(Exec(first, trace))
  {
    if trace != [] {
      var was, e := trace[..|trace| - 1], trace[|trace| - 1];
      Reachable(first, was);
      MountedUntilUnmount(first, was);
      StepRefs(Exec(first, was), e, Visits(first, was));
      StepRequests(Exec(first, was), e);
      StepPoints(Exec(first, was), e, Visits(first, was), Landed(was));
    }
  }

  // ---------------------------------------------------------------------------
  // What every run keeps

  lemma ExposedIsStreak(s: State, visits: seq<Option<string>>, landed: seq<Point>)
    requires RefsInv(s, visits) && PointsInv(s, visits, landed)
    ensures s.Exposed() == Newest(Streak(landed, s.selection.seqNo), CAPACITY)
  {
  }

  /**
   The chart is exactly the newest samples of the unbroken streak of replies, up to the last
   one that landed, that were requested during the visit on screen.
   */
  lemma HistoryIsTheCurrentStreak(first: Option<Conn>, trace: seq<Event>)
    requires Valid(first, trace)
    ensures Exec(first, trace).selection.seqNo == |Visits(first, trace)| - 1
    ensures Exec(first, trace).Exposed() == Newest(Streak(Landed(trace), Exec(first, trace).selection.seqNo), 120)
  {
    var s, visits, landed := Exec(first, trace), Visits(first, trace), Landed(trace);
    Reachable(first, trace);
    ExposedIsStreak(s, visits, landed);
  }

  /** So every point on the chart was requested during this visit, of the connection on screen. */
  lemma HistoryNeverMixes(first: Option<Conn>, trace: seq<Event>, p: Point)
    requires Valid(first, trace) && p in Exec(first, trace).Exposed()
    ensures p in Landed(trace)
    ensures p.request.selection == Exec(first, trace).selection.seqNo
    ensures Some(p.request.conn.id) == IdOf(Exec(first, trace).connection)
  {
    Reachable(first, trace);
    HistoryIsTheCurrentStreak(first, trace);
    assert Issued(p.request, Visits(first, trace));
  }

  /** The buffer never holds points of two visits, whether or not it is the visit on screen. */
  lemma BufferHasOneOwner(first: Option<Conn>, trace: seq<Event>, p: Point)
    requires Valid(first, trace) && p in Exec(first, trace).pushed
    ensures Exec(first, trace).owner == Some(p.request.selection)
  {
    Reachable(first, trace);
  }

  predicate StaysOn(trace: seq<Event>, id: Option<string>) {
    forall e <- trace :: e.Render? ==> IdOf(e.connection) == id
  }

  lemma {:induction false} VisitLasts(first: Option<Conn>, trace: seq<Event>, stay: seq<Event>)
    requires StaysOn(stay, Visits(first, trace)[|Visits(first, trace)| - 1])
    ensures Visits(first, trace + stay) == Visits(first, trace)
  {
    if stay == [] {
      assert trace + stay == trace;
    } else {
      assert (trace + stay)[..|trace + stay| - 1] == trace + stay[..|stay| - 1];
      VisitLasts(first, trace, stay[..|stay| - 1]);
    }
  }

  lemma {:induction false} ValidPrefix(first: Option<Conn>, trace: seq<Event>, more: seq<Event>)
    requires Valid(first, trace + more)
    ensures Valid(first, trace)
  {
    if more == [] {
      assert trace + more == trace;
    } else {
      assert (trace + more)[..|trace + more| - 1] == trace + more[..|more| - 1];
      ValidPrefix(first, trace, more[..|more| - 1]);
    }
  }

  predicate NoneOfVisit(events: seq<Event>, visit: nat) {
    forall e <- events :: e.Reply? ==> e.request.selection != visit
  }

  lemma {:induction false} NoStreakYet(trace: seq<Event>, more: seq<Event>, visit: nat)
    requires NoneOfVisit(more, visit)
    requires forall p <- Landed(trace) :: p.request.selection != visit
    ensures forall p <- Landed(trace + more) :: p.request.selection != visit
  {
    if more == [] {
      assert trace + more == trace;
    } else {
      assert (trace + more)[..|trace + more| - 1] == trace + more[..|more| - 1];
      NoStreakYet(trace, more[..|more| - 1], visit);
    }
  }

  lemma NothingLandedNothingShown(first: Option<Conn>, trace: seq<Event>)
    requires Valid(first, trace)
    requires forall p <- Landed(trace) :: p.request.selection != |Visits(first, trace)| - 1
    ensures Exec(first, trace).Exposed() == []
  {
    if Exec(first, trace).Exposed() != [] {
      HistoryIsTheCurrentStreak(first, trace);
      HistoryNeverMixes(first, trace, Exec(first, trace).Exposed()[0]);
    }
  }

  lemma VisitsLast(first: Option<Conn>, trace: seq<Event>, e: Event)
    ensures Visits(first, trace + [e]) == NoteVisit(Visits(first, trace), e)
  {
    assert (trace + [e])[..|trace|] == trace;
  }

  lemma LandedLast(trace: seq<Event>, e: Event)
    requires !e.Reply?
    ensures Landed(trace + [e]) == Landed(trace)
  {
    assert (trace + [e])[..|trace|] == trace;
  }

  lemma AtVisit(first: Option<Conn>, trace: seq<Event>)
    requires Valid(first, trace)
    ensures
      var visits, s := Visits(first, trace), Exec(first, trace);
      && |visits| == s.selection.seqNo + 1 && visits[|visits| - 1] == s.selection.id
      && forall p <- Landed(trace) :: p.request.selection < |visits|
  {
    var visits, s := Visits(first, trace), Exec(first, trace);
    Reachable(first, trace);
    assert RefsInv(s, visits);
    assert forall p <- Landed(trace) :: Issued(p.request, visits);
  }

  /**
   Leaving a connection empties the chart at that very render, and it stays empty until a
   reply requested during the new visit lands: replies still on their way for earlier
   visits, of the same connection too, never show.
   */
  lemma NewVisitStartsEmpty(first: Option<Conn>, trace: seq<Event>, next: Option<Conn>, stay: seq<Event>)
    requires Valid(first, trace + [Render(next)] + stay)
    requires IdOf(next) != Exec(first, trace).selection.id
    requires StaysOn(stay, IdOf(next)) && NoneOfVisit(stay, Exec(first, trace).selection.seqNo + 1)
    ensures Exec(first, trace + [Render(next)] + stay).Exposed() == []
  {
    var left := trace + [Render(next)];
    ValidPrefix(first, left, stay);
    ValidPrefix(first, trace, [Render(next)]);
    AtVisit(first, trace);
    VisitsLast(first, trace, Render(next));
    LandedLast(trace, Render(next));
    VisitLasts(first, left, stay);
    NoStreakYet(left, stay, |Visits(first, trace)|);
    NothingLandedNothingShown(first, left + stay);
  }

  /** With no connection there is no history at all. */
  lemma NoConnectionNoHistory(first: Option<Conn>, trace: seq<Event>)
    requires Valid(first, trace) && Exec(first, trace).connection == None
    ensures Exec(first, trace).Exposed() == [] && Exec(first, trace).ExposedData() == None
  {
    if Exec(first, trace).Exposed() != [] {
      HistoryNeverMixes(first, trace, Exec(first, trace).Exposed()[0]);
    }
  }

  /** At most one request is wanted: every other one still pending has been aborted. */
  lemma OneRequestIsWanted(first: Option<Conn>, trace: seq<Event>, q: Request, r: Request)
    requires Valid(first, trace) && {q, r} <= Exec(first, trace).pending
    requires q.n !in Exec(first, trace).aborted && r.n !in Exec(first, trace).aborted
    ensures q == r
  {
    Reachable(first, trace);
    assert q in {q, r} && r in {q, r};
  }

  // ---------------------------------------------------------------------------
  // What the hook does not keep

  lemma ReplyOnChart(s: State, visits: seq<Option<string>>, landed: seq<Point>, p: Point)
    requires RefsInv(s, visits) && PointsInv(s, visits, landed)
    ensures Keep(s, p).Exposed() ==
      if p.request.selection == s.selection.seqNo then Newest(s.Exposed() + [p], CAPACITY) else []
  {
    if p.request.selection == s.selection.seqNo && s.owner == Some(p.request.selection) {
      NewestOfNewest(s.pushed, p, CAPACITY);
    }
  }

  /**
   The chart survives a reply exactly when the reply is of the visit on screen: an old
   visit's late reply takes the buffer over and leaves the chart empty.
   */
  lemma ChartSurvivesIff(first: Option<Conn>, trace: seq<Event>, request: Request, sample: string)
    requires Valid(first, trace) && Unmount !in trace && Enabled(Exec(first, trace), Reply(request, sample))
    ensures
      var s := Exec(first, trace);
      Step(s, Reply(request, sample)).Exposed() ==
        if request.selection == s.selection.seqNo
        then Newest(s.Exposed() + [Point(request, sample)], CAPACITY) else []
  {
    MountedUntilUnmount(first, trace);
    Reachable(first, trace);
    ReplyOnChart(Exec(first, trace), Visits(first, trace), Landed(trace), Point(request, sample));
  }

  /** `data` is the last reply that landed, whoever asked for it; only `history` knows its selection. */
  lemma DataIsTheLastReply(first: Option<Conn>, trace: seq<Event>)
    requires Valid(first, trace)
    ensures
      var s, landed := Exec(first, trace), Landed(trace);
      s.ExposedData() == if s.connection == None || landed == [] then None else Some(landed[|landed| - 1])
  {
    Reachable(first, trace);
  }

  /** So `data` is of the visit on screen exactly when the chart is not empty. */
  lemma DataIsThisVisitsIff(first: Option<Conn>, trace: seq<Event>)
    requires Valid(first, trace) && Exec(first, trace).ExposedData().Some?
    ensures
      var s := Exec(first, trace);
      s.ExposedData().value.request.selection == s.selection.seqNo <==> s.Exposed() != []
  {
    Reachable(first, trace);
    ChartMeansFreshData(Exec(first, trace), Visits(first, trace), Landed(trace));
  }

  lemma ChartMeansFreshData(s: State, visits: seq<Option<string>>, landed: seq<Point>)
    requires PointsInv(s, visits, landed) && s.ExposedData().Some?
    ensures s.ExposedData().value.request.selection == s.selection.seqNo <==> s.Exposed() != []
  {
    var last := landed[|landed| - 1];
    StreakIsShown(landed, last.request.selection);
    ChartOf(s, last.request.selection, Newest(s.pushed, CAPACITY));
  }

  lemma ChartOf(s: State, visit: nat, points: seq<Point>)
    requires s.history == Some(History(visit, points)) && points != []
    ensures visit == s.selection.seqNo <==> s.Exposed() != []
  {
  }

  lemma StreakIsShown(landed: seq<Point>, visit: nat)
    requires landed != [] && landed[|landed| - 1].request.selection == visit
    ensures Newest(Streak(landed, visit), CAPACITY) != []
  {
  }

  lemma ExecLast(first: Option<Conn>, trace: seq<Event>, e: Event)
    requires Valid(first, trace) && Enabled(Exec(first, trace), e)
    ensures Valid(first, trace + [e]) && Exec(first, trace + [e]) == Step(Exec(first, trace), e)
  {
    assert (trace + [e])[..|trace|] == trace;
  }

  /** Hence data of the connection that was left stays on screen under the next one until that one answers. */
  lemma DataOutlivesItsConnection(first: Option<Conn>, trace: seq<Event>, next: Conn)
    requires Valid(first, trace) && Enabled(Exec(first, trace), Render(Some(next)))
    requires Landed(trace) != []
    ensures Step(Exec(first, trace), Render(Some(next))).ExposedData() == Some(Landed(trace)[|Landed(trace)| - 1])
  {
    Reachable(first, trace);
  }

  /**
   `loading` is cleared by whichever request settles next: once a newer request has aborted
   `superseded`, the AbortError of the old one turns the indicator off while the newer one is on its way.
   */
  lemma LoadingDropsEarly(first: Option<Conn>, trace: seq<Event>, superseded: Request)
    requires Valid(first, trace) && Unmount !in trace
    requires superseded in Exec(first, trace).pending && superseded.n !in Exec(first, trace).aborted
    requires Exec(first, trace).connectionRef.Some?
    ensures
      var s := Exec(first, trace);
      var s' := Step(s, Fetch);
      && Enabled(s', Cancelled(superseded))
      && NewRequest(s) in Step(s', Cancelled(superseded)).pending
      && NewRequest(s).n !in Step(s', Cancelled(superseded)).aborted
      && !Step(s', Cancelled(superseded)).loading
  {
    MountedUntilUnmount(first, trace);
    Reachable(first, trace);
  }
}
