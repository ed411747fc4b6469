/**
 `useProviderMetadata`: which read a declaration on screen came from. A read is known by a
 text key, its attempt and its connection's id; renders and effects are separate steps.
 */
module Metadata {
  import opened Options
  import opened Strings

  /** One request and the key its closure holds; `n` tells requests with one key apart. */
  datatype Request = Request(n: nat, attempt: nat, id: string)
  {
    function Key(): string { ReadKey(attempt, id) }
  }

  datatype Outcome = Answered(declaration: string) | Refused(message: string)

  /** What a request answered. */
  datatype Answer = Answer(request: Request, declaration: string)

  datatype State = State(
    connection: Option<string>,        // the id of the rendered connection
    attempt: nat,
    effected: Option<string>,          // the read key the effect last ran for
    lastReadKey: Option<string>,
    metadata: Option<Answer>,
    error: Option<string>,
    isLoading: bool,
    pending: set<Request>,
    next: nat)
  {
    function Wanted(): Option<string> {
      if connection.Some? then Some(ReadKey(attempt, connection.value)) else None
    }

    /** The effect of the latest render has run. */
    predicate Synced() { effected == Wanted() && lastReadKey == Wanted() }

    /** The `metadata` and `error` the hook returns. */
    function Exposed(): Option<Answer> { if connection.None? then None else metadata }
    function ExposedError(): Option<string> { if connection.None? then None else error }
  }

  datatype Event =
    | Render(connection: Option<string>)
    | Retry
    | Effects
    | Settle(request: Request, outcome: Outcome)

  // ---------------------------------------------------------------------------
  // Keys

  function ReadKey(attempt: nat, id: string): string {
    Decimal(attempt) + (":" + id)
  }

  /** No two reads share a key: an id may hold digits and colons, but the first colon ends the attempt. */
  lemma KeysTellReadsApart(a: nat, id: string, b: nat, id': string)
    requires ReadKey(a, id) == ReadKey(b, id')
    ensures a == b && id == id'
  {
    RunLengthOf(Decimal(a), ":" + id, IsDigit);
    RunLengthOf(Decimal(b), ":" + id', IsDigit);
    var key := ReadKey(a, id);
    assert key[..|Decimal(a)|] == Decimal(a) && key[..|Decimal(b)|] == Decimal(b);
    assert key[|Decimal(a)| + 1..] == id && key[|Decimal(b)| + 1..] == id';
    DecimalReadsBack(a);
    DecimalReadsBack(b);
  }

  // ---------------------------------------------------------------------------
  // Steps

  function NewRequest(s: State): Request
    requires s.connection.Some?
  {
    Request(s.next, s.attempt, s.connection.value)
  }

  function RunEffect(s: State): State {
    var s' := s.(effected := s.Wanted());
    if s.connection.None? then s'.(lastReadKey := None)
    else if s.lastReadKey == s.Wanted() then s'
    else s'.(lastReadKey := s.Wanted(), metadata := None, error := None, isLoading := true,
             pending := s.pending + {NewRequest(s)}, next := s.next + 1)
  }

  function Step(s: State, e: Event): State {
    match e
    case Render(connection) => s.(connection := connection)
    case Retry => s.(attempt := s.attempt + 1)
    case Effects => RunEffect(s)
    case Settle(request, outcome) =>
      var s' := s.(pending := s.pending - {request});
      if s.lastReadKey != Some(request.Key()) then s' else
      match outcome
      case Answered(declaration) => s'.(metadata := Some(Answer(request, declaration)), isLoading := false)
      case Refused(message) => s'.(metadata := None, error := Some(message), isLoading := false)
  }

  predicate Enabled(s: State, e: Event) {
    e.Settle? ==> e.request in s.pending
  }

  function Start(connection: Option<string>): State {
    State(connection, 0, None, None, None, None, false, {}, 0)
  }

  function Exec(first: Option<string>, trace: seq<Event>): State {
    if trace == [] then Start(first) else Step(Exec(first, trace[..|trace| - 1]), trace[|trace| - 1])
  }

  ghost predicate Valid(first: Option<string>, trace: seq<Event>) {
    trace == [] || (
      && Valid(first, trace[..|trace| - 1])
      && Enabled(Exec(first, trace[..|trace| - 1]), trace[|trace| - 1]))
  }

  // ---------------------------------------------------------------------------
  // The invariant: everything is read off the key last asked for

  ghost predicate Awaits(s: State, key: string) {
    exists r <- s.pending :: r.Key() == key
  }

  ghost predicate Inv(s: State) {
    && (forall r <- s.pending :: r.n < s.next)
    && (s.lastReadKey.Some? ==>
          && (s.metadata.Some? ==> s.metadata.value.request.Key() == s.lastReadKey.value)
          && (s.isLoading ==> Awaits(s, s.lastReadKey.value))
          && (!s.isLoading ==> s.metadata.Some? || s.error.Some?))
  }

  lemma SettleKeeps(s: State, e: Event)
    requires Inv(s) && Enabled(s, e) && e.Settle?
    ensures Inv(Step(s, e))
  {
    var t := Step(s, e);
    if s.lastReadKey.Some? && s.isLoading && s.lastReadKey != Some(e.request.Key()) {
      var r :| r in s.pending && r.Key() == s.lastReadKey.value;
      assert r in t.pending;
    }
  }

  lemma EffectKeeps(s: State)
    requires Inv(s)
    ensures Inv(RunEffect(s))
  {
    var t := RunEffect(s);
    if s.connection.Some? && s.lastReadKey != s.Wanted() {
      assert NewRequest(s) in t.pending && NewRequest(s).Key() == t.lastReadKey.value;
    }
  }

  lemma {:induction false} Reachable(first: Option<string>, trace: seq<Event>)
    requires Valid(first, trace)
    ensures Inv(Exec(first, trace))
  {
    if trace != [] {
      var s, e := Exec(first, trace[..|trace| - 1]), trace[|trace| - 1];
      Reachable(first, trace[..|trace| - 1]);
      if e.Settle? {
        SettleKeeps(s, e);
      } else if e.Effects? {
        EffectKeeps(s);
      }
    }
  }

  // ---------------------------------------------------------------------------
  // What every run keeps

  /**
   Once the effect of the latest render has run, a declaration on screen was answered for the
   selected connection, on its latest attempt, however late other answers land.
   */
  lemma DeclarationIsTheConnections(first: Option<string>, trace: seq<Event>)
    requires Valid(first, trace) && Exec(first, trace).Synced() && Exec(first, trace).Exposed().Some?
    ensures
      var s := Exec(first, trace);
      Some(s.Exposed().value.request.id) == s.connection && s.Exposed().value.request.attempt == s.attempt
  {
    Reachable(first, trace);
    var s := Exec(first, trace);
    var r := s.metadata.value.request;
    KeysTellReadsApart(r.attempt, r.id, s.attempt, s.connection.value);
  }

  /** The spinner of a selected connection waits for a read of it, and off it leaves an answer or a reason. */
  lemma NeverPendingForNothing(first: Option<string>, trace: seq<Event>)
    requires Valid(first, trace) && Exec(first, trace).Synced() && Exec(first, trace).connection.Some?
    ensures
      var s := Exec(first, trace);
      && (s.isLoading ==> exists r <- s.pending :: Some(r.id) == s.connection && r.attempt == s.attempt)
      && (!s.isLoading ==> s.Exposed().Some? || s.ExposedError().Some?)
  {
    Reachable(first, trace);
    var s := Exec(first, trace);
    if s.isLoading {
      var r :| r in s.pending && r.Key() == s.lastReadKey.value;
      KeysTellReadsApart(r.attempt, r.id, s.attempt, s.connection.value);
    }
  }

  /** Without a connection nothing is shown, whatever is still held or on its way; with one, what is held. */
  lemma ShownIff(first: Option<string>, trace: seq<Event>)
    ensures
      var s, selected := Exec(first, trace), WantOf(first, trace).connection;
      if selected.Some? then s.Exposed() == s.metadata && s.ExposedError() == s.error
      else s.Exposed() == None && s.ExposedError() == None
  {
    AlwaysMatches(first, trace);
  }

  lemma OtherKeyIsSilent(s: State, request: Request, outcome: Outcome)
    requires s.lastReadKey.Some? ==> s.lastReadKey.value != request.Key()
    ensures Step(s, Settle(request, outcome)) == s.(pending := s.pending - {request})
  {
  }

  /** An answer to a read of another connection, or of an earlier attempt at this one, changes nothing on screen. */
  lemma StaleAnswerIsSilent(first: Option<string>, trace: seq<Event>, request: Request, outcome: Outcome)
    requires Valid(first, trace) && Exec(first, trace).Synced() && request in Exec(first, trace).pending
    requires Some(request.id) != Exec(first, trace).connection || request.attempt != Exec(first, trace).attempt
    ensures
      var s := Exec(first, trace);
      Step(s, Settle(request, outcome)) == s.(pending := s.pending - {request})
  {
    var s := Exec(first, trace);
    if s.lastReadKey == Some(request.Key()) {
      KeysTellReadsApart(request.attempt, request.id, s.attempt, s.connection.value);
    }
    OtherKeyIsSilent(s, request, outcome);
  }

  // ---------------------------------------------------------------------------
  // What the trace says was asked for, and what has landed for it

  /** `asked` is the attempt and the connection of the read the hook holds its state for. */
  datatype Want = Want(connection: Option<string>, attempt: nat, asked: Option<(nat, string)>, ever: bool)

  predicate TakesKey(w: Want, e: Event) {
    e.Effects? && w.connection.Some? && w.asked != Some((w.attempt, w.connection.value))
  }

  function NoteWant(w: Want, e: Event): Want {
    match e
    case Render(connection) => w.(connection := connection)
    case Retry => w.(attempt := w.attempt + 1)
    case Effects =>
      if w.connection.None? then w.(asked := None) else w.(asked := Some((w.attempt, w.connection.value)), ever := true)
    case Settle(_, _) => w
  }

  function WantOf(first: Option<string>, trace: seq<Event>): Want {
    if trace == [] then Want(first, 0, None, false) else NoteWant(WantOf(first, trace[..|trace| - 1]), trace[|trace| - 1])
  }

  predicate Lands(w: Want, e: Event) {
    e.Settle? && w.asked == Some((e.request.attempt, e.request.id))
  }

  /** The outcomes that landed for the read asked for, since it was asked for. */
  function Landed(first: Option<string>, trace: seq<Event>): seq<Outcome> {
    if trace == [] then [] else
    var was, e := trace[..|trace| - 1], trace[|trace| - 1];
    if TakesKey(WantOf(first, was), e) then []
    else if Lands(WantOf(first, was), e) then Landed(first, was) + [e.outcome]
    else Landed(first, was)
  }

  function KeyOf(asked: Option<(nat, string)>): Option<string> {
    if asked.Some? then Some(ReadKey(asked.value.0, asked.value.1)) else None
  }

  ghost predicate Matches(s: State, w: Want) {
    s.connection == w.connection && s.attempt == w.attempt && s.lastReadKey == KeyOf(w.asked)
  }

  /** Comparing keys is comparing attempts and connections. */
  lemma SameKey(a: Option<(nat, string)>, b: (nat, string))
    ensures KeyOf(a) == Some(ReadKey(b.0, b.1)) <==> a == Some(b)
  {
    if KeyOf(a) == Some(ReadKey(b.0, b.1)) {
      KeysTellReadsApart(a.value.0, a.value.1, b.0, b.1);
    }
  }

  lemma StepMatches(s: State, w: Want, e: Event)
    requires Matches(s, w)
    ensures Matches(Step(s, e), NoteWant(w, e))
    ensures TakesKey(w, e) <==> e.Effects? && s.connection.Some? && s.lastReadKey != s.Wanted()
    ensures Lands(w, e) <==> e.Settle? && s.lastReadKey == Some(e.request.Key())
  {
    if w.connection.Some? { SameKey(w.asked, (w.attempt, w.connection.value)); }
    if e.Settle? { SameKey(w.asked, (e.request.attempt, e.request.id)); }
  }

  lemma {:induction false} AlwaysMatches(first: Option<string>, trace: seq<Event>)
    ensures Matches(Exec(first, trace), WantOf(first, trace))
  {
    if trace != [] {
      AlwaysMatches(first, trace[..|trace| - 1]);
      StepMatches(Exec(first, trace[..|trace| - 1]), WantOf(first, trace[..|trace| - 1]), trace[|trace| - 1]);
    }
  }

  predicate SomeRefused(landed: seq<Outcome>) {
    exists o <- landed :: o.Refused?
  }

  /** The reason given last. */
  function LastReason(landed: seq<Outcome>): (r: Option<string>)
    ensures r.Some? <==> SomeRefused(landed)
  {
    if landed == [] then None else
    var last := landed[|landed| - 1];
    assert landed == landed[..|landed| - 1] + [last];
    if last.Refused? then Some(last.message) else LastReason(landed[..|landed| - 1])
  }

  ghost predicate Decided(s: State, w: Want, landed: seq<Outcome>) {
    && (s.metadata.Some? <==> landed != [] && landed[|landed| - 1].Answered?)
    && (s.metadata.Some? ==> s.metadata.value.declaration == landed[|landed| - 1].declaration)
    && s.error == LastReason(landed)
    && (s.isLoading <==> w.ever && landed == [])
    && (landed != [] || w.asked.Some? ==> w.ever)
  }

  lemma LandingDecides(s: State, w: Want, e: Event, landed: seq<Outcome>)
    requires Matches(s, w) && Decided(s, w, landed) && Lands(w, e)
    ensures Decided(Step(s, e), NoteWant(w, e), landed + [e.outcome])
  {
    StepMatches(s, w, e);
    assert (landed + [e.outcome])[|landed|] == e.outcome && (landed + [e.outcome])[..|landed|] == landed;
    assert forall o :: o in landed + [e.outcome] <==> o in landed || o == e.outcome;
  }

  lemma OtherStepsDecide(s: State, w: Want, e: Event, landed: seq<Outcome>)
    requires Matches(s, w) && Decided(s, w, landed) && !Lands(w, e)
    ensures Decided(Step(s, e), NoteWant(w, e), if TakesKey(w, e) then [] else landed)
  {
    StepMatches(s, w, e);
  }

  /**
   For every run: a declaration stands exactly where the last outcome that landed for the read
   asked for was an answer, and is that one; an error exactly where one of them was a refusal, and
   is the last of their reasons; and the spinner is
   on exactly while a read has been asked for and nothing has landed for it.
   */
  lemma {:induction false} OutcomesDecide(first: Option<string>, trace: seq<Event>)
    ensures Decided(Exec(first, trace), WantOf(first, trace), Landed(first, trace))
  {
    if trace != [] {
      var was, e := trace[..|trace| - 1], trace[|trace| - 1];
      OutcomesDecide(first, was);
      AlwaysMatches(first, was);
      if Lands(WantOf(first, was), e) {
        LandingDecides(Exec(first, was), WantOf(first, was), e, Landed(first, was));
      } else {
        OtherStepsDecide(Exec(first, was), WantOf(first, was), e, Landed(first, was));
      }
    }
  }

  /** Hence declaration and error stand together exactly where the last outcome is an answer and an earlier one a refusal. */
  lemma BothStandIff(first: Option<string>, trace: seq<Event>)
    ensures
      var s, landed := Exec(first, trace), Landed(first, trace);
      s.Exposed().Some? && s.ExposedError().Some? <==>
        && s.connection.Some? && landed != []
        && landed[|landed| - 1].Answered? && SomeRefused(landed[..|landed| - 1])
  {
    OutcomesDecide(first, trace);
    var landed := Landed(first, trace);
    if landed != [] {
      assert landed == landed[..|landed| - 1] + [landed[|landed| - 1]];
    }
  }

  // ---------------------------------------------------------------------------
  // Two outcomes for one read need a return

  predicate IsFor(r: Request, asked: Option<(nat, string)>) {
    asked == Some((r.attempt, r.id))
  }

  /** No read is asked for again while an earlier request for it is pending. */
  ghost predicate NeverReturns(first: Option<string>, trace: seq<Event>) {
    trace == [] || (
      var was, e := trace[..|trace| - 1], trace[|trace| - 1];
      && NeverReturns(first, was)
      && (TakesKey(WantOf(first, was), e) ==>
            forall r <- Exec(first, was).pending :: !IsFor(r, NoteWant(WantOf(first, was), e).asked)))
  }

  ghost predicate OneOutcome(s: State, w: Want, landed: seq<Outcome>) {
    && |landed| <= 1
    && (forall q, r | q in s.pending && r in s.pending && IsFor(q, w.asked) && IsFor(r, w.asked) :: q == r)
    && (landed != [] ==> forall r <- s.pending :: !IsFor(r, w.asked))
  }

  lemma StepOneOutcome(s: State, w: Want, e: Event, landed: seq<Outcome>)
    requires Matches(s, w) && Enabled(s, e) && OneOutcome(s, w, landed)
    requires TakesKey(w, e) ==> forall r <- s.pending :: !IsFor(r, NoteWant(w, e).asked)
    ensures OneOutcome(Step(s, e), NoteWant(w, e),
              if TakesKey(w, e) then [] else if Lands(w, e) then landed + [e.outcome] else landed)
  {
    StepMatches(s, w, e);
    if e.Settle? {
      assert Step(s, e).pending == s.pending - {e.request};
    } else if TakesKey(w, e) {
      assert Step(s, e).pending == s.pending + {NewRequest(s)};
    } else {
      assert Step(s, e).pending == s.pending;
    }
  }

  lemma {:induction false} ReturningNeededForTwo(first: Option<string>, trace: seq<Event>)
    requires Valid(first, trace) && NeverReturns(first, trace)
    ensures OneOutcome(Exec(first, trace), WantOf(first, trace), Landed(first, trace))
  {
    if trace != [] {
      var was, e := trace[..|trace| - 1], trace[|trace| - 1];
      ReturningNeededForTwo(first, was);
      AlwaysMatches(first, was);
      StepOneOutcome(Exec(first, was), WantOf(first, was), e, Landed(first, was));
    }
  }

  /** A reader who never comes back to a connection while it is still being read never sees both. */
  lemma NeverBothWithoutReturning(first: Option<string>, trace: seq<Event>)
    requires Valid(first, trace) && NeverReturns(first, trace)
    ensures Exec(first, trace).Exposed().None? || Exec(first, trace).ExposedError().None?
  {
    ReturningNeededForTwo(first, trace);
    BothStandIff(first, trace);
  }

  // ---------------------------------------------------------------------------
  // What the hook does not keep

  /** Between a render and its effect the previous connection's declaration stands in for the new one. */
  lemma OldDeclarationUntilTheEffect(first: Option<string>, trace: seq<Event>, next: string)
    requires Valid(first, trace) && Exec(first, trace).Synced() && Exec(first, trace).Exposed().Some?
    requires Exec(first, trace).connection != Some(next)
    ensures
      var rendered := Step(Exec(first, trace), Render(Some(next)));
      && rendered.Exposed().Some? && rendered.Exposed().value.request.id != next
      && Step(rendered, Effects).Exposed() == None
  {
    DeclarationIsTheConnections(first, trace);
    var s := Exec(first, trace);
    if ReadKey(s.attempt, next) == ReadKey(s.attempt, s.connection.value) {
      KeysTellReadsApart(s.attempt, next, s.attempt, s.connection.value);
    }
  }

  predicate StaysDeselected(events: seq<Event>) {
    forall e <- events :: e.Render? ==> e.connection.None?
  }

  lemma {:induction false} DeselectedIsFrozen(first: Option<string>, trace: seq<Event>, stay: seq<Event>)
    requires Exec(first, trace).connection.None? && StaysDeselected(stay)
    ensures
      var s, t := Exec(first, trace + [Effects]), Exec(first, trace + [Effects] + stay);
      t.connection.None? && t.lastReadKey.None? && s.isLoading == t.isLoading == Exec(first, trace).isLoading
  {
    assert (trace + [Effects])[..|trace|] == trace;
    if stay == [] {
      assert trace + [Effects] + stay == trace + [Effects];
    } else {
      var all, fewer := trace + [Effects] + stay, stay[..|stay| - 1];
      assert all[..|all| - 1] == trace + [Effects] + fewer && all[|all| - 1] == stay[|stay| - 1];
      assert stay[|stay| - 1] in stay;
      DeselectedIsFrozen(first, trace, fewer);
    }
  }

  /**
   Without a connection `isLoading` is on exactly when a read was unanswered at the deselection,
   and then nothing turns it off: not its answer, however long the reader stays away.
   */
  lemma LoadingOutlivesTheSelectionIff(first: Option<string>, trace: seq<Event>, stay: seq<Event>)
    requires Exec(first, trace).connection.None? && StaysDeselected(stay)
    ensures Exec(first, trace + [Effects] + stay).isLoading <==>
              WantOf(first, trace).ever && Landed(first, trace) == []
  {
    DeselectedIsFrozen(first, trace, stay);
    OutcomesDecide(first, trace);
  }

  /** The reader selects a connection, and the effect runs. */
  function Visit(s: State, id: string): State {
    Step(Step(s, Render(Some(id))), Effects)
  }

  /** Leaving a connection that is being read and coming back reads it twice under one key. */
  lemma ReturningReadsTwice(first: Option<string>, trace: seq<Event>, earlier: Request, other: string)
    requires Valid(first, trace) && Exec(first, trace).Synced()
    requires earlier in Exec(first, trace).pending && Exec(first, trace).lastReadKey == Some(earlier.Key())
    requires Some(other) != Exec(first, trace).connection
    ensures
      var s := Exec(first, trace);
      var t, later := Visit(Visit(s, other), earlier.id), Request(s.next + 1, s.attempt, earlier.id);
      && later != earlier && {earlier, later} <= t.pending && t.connection == Some(earlier.id)
      && t.lastReadKey == Some(earlier.Key()) == Some(later.Key())
  {
    Reachable(first, trace);
    var s := Exec(first, trace);
    KeysTellReadsApart(earlier.attempt, earlier.id, s.attempt, s.connection.value);
    if ReadKey(s.attempt, other) == ReadKey(s.attempt, s.connection.value) {
      KeysTellReadsApart(s.attempt, other, s.attempt, s.connection.value);
    }
    var away := Visit(s, other);
    assert away.lastReadKey == Some(ReadKey(s.attempt, other)) && away.next == s.next + 1;
  }

  /** From every run with a read pending, that return leads to both at once: the later read is refused, the earlier answers. */
  lemma BothMayStand(first: Option<string>, trace: seq<Event>, earlier: Request, other: string, message: string, declaration: string)
    requires Valid(first, trace) && Exec(first, trace).Synced()
    requires earlier in Exec(first, trace).pending && Exec(first, trace).lastReadKey == Some(earlier.Key())
    requires Some(other) != Exec(first, trace).connection
    ensures
      var s := Exec(first, trace);
      var t, later := Visit(Visit(s, other), earlier.id), Request(s.next + 1, s.attempt, earlier.id);
      var refused := Step(t, Settle(later, Refused(message)));
      var both := Step(refused, Settle(earlier, Answered(declaration)));
      && Enabled(t, Settle(later, Refused(message))) && Enabled(refused, Settle(earlier, Answered(declaration)))
      && both.Exposed() == Some(Answer(earlier, declaration)) && both.ExposedError() == Some(message)
  {
    ReturningReadsTwice(first, trace, earlier, other);
    var s := Exec(first, trace);
    var t, later := Visit(Visit(s, other), earlier.id), Request(s.next + 1, s.attempt, earlier.id);
    assert earlier in {earlier, later} && later in {earlier, later};
  }

  // ---------------------------------------------------------------------------
  // The hook

  class ProviderMetadata {
    var connection: Option<string>
    var attempt: nat
    var metadataState: Option<Answer>
    var error: Option<string>
    var isLoading: bool
    var lastReadKey: Option<string>
    var next: nat
    ghost var effected: Option<string>
    ghost var pending: set<Request>

    ghost function Now(): State
      reads this
    {
      State(connection, attempt, effected, lastReadKey, metadataState, error, isLoading, pending, next)
    }

    constructor (first: Option<string>)
      ensures Now() == Start(first)
    {
      connection, attempt, lastReadKey, effected := first, 0, None, None;
      metadataState, error, isLoading, next, pending := None, None, false, 0, {};
    }

    method OnRender(now: Option<string>)
      modifies this`connection
      ensures Now() == Step(old(Now()), Render(now))
    {
      connection := now;
    }

    method OnRetry()
      modifies this`attempt
      ensures Now() == Step(old(Now()), Retry)
    {
      attempt := attempt + 1;
    }

    method OnEffects()
      modifies this
      ensures Now() == Step(old(Now()), Effects)
    {
      effected := Now().Wanted();
      if connection.None? {
        lastReadKey := None;
        return;
      }
      var requestedKey := ReadKey(attempt, connection.value);
      if lastReadKey == Some(requestedKey) { return; }
      lastReadKey := Some(requestedKey);
      metadataState := None;
      error := None;
      isLoading := true;
      pending := pending + {Request(next, attempt, connection.value)};
      next := next + 1;
    }

    /** The settle handlers of one request: every write checks its key. */
    method OnSettled(request: Request, outcome: Outcome)
      modifies this
      ensures Now() == Step(old(Now()), Settle(request, outcome))
    {
      pending := pending - {request};
      var requestedKey := request.Key();
      match outcome {
        case Answered(declaration) =>
          if lastReadKey == Some(requestedKey) {
            metadataState := Some(Answer(request, declaration));
          }
        case Refused(message) =>
          if lastReadKey == Some(requestedKey) {
            metadataState := None;
            error := Some(message);
          }
      }
      if lastReadKey == Some(requestedKey) {
        isLoading := false;
      }
    }
  }
}
