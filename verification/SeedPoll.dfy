/**
 The pending-seed poll of `useConnectionManager`: a timer that asks the server again until the
 announced connections are there, a bounded number of times and one request at a time.
 */
module SeedPoll {
  import opened Options

  const MAX_ATTEMPTS := 30

  /** A reply with the server's list and what is still pending, a refusal, or an exception. */
  datatype Outcome = Listed(list: seq<string>, stillPending: seq<string>) | Refused | Threw

  datatype State = State(
    timer: bool,
    attempts: nat,
    inFlight: bool,
    cancelled: bool,
    connections: seq<string>,
    active: Option<string>)

  datatype Event = Tick | Settle(outcome: Outcome) | Unmount

  // ---------------------------------------------------------------------------
  // Steps

  function Show(s: State, list: seq<string>): State {
    if list == [] then s
    else s.(connections := list, active := if s.active.Some? then s.active else Some(list[0]))
  }

  function Step(s: State, e: Event): State {
    match e
    case Tick => if s.inFlight then s else s.(inFlight := true, attempts := s.attempts + 1)
    case Settle(outcome) =>
      var shown := if !s.cancelled && outcome.Listed? then Show(s, outcome.list) else s;
      shown.(inFlight := false,
             timer := s.timer && s.attempts < MAX_ATTEMPTS
                      && !(!s.cancelled && outcome.Listed? && outcome.stillPending == []))
    case Unmount => s.(cancelled := true, timer := false)
  }

  predicate Enabled(s: State, e: Event) {
    match e
    case Tick => s.timer
    case Settle(_) => s.inFlight
    case Unmount => !s.cancelled
  }

  function Start(pendingSeeds: seq<string>, connections: seq<string>, active: Option<string>): State {
    State(pendingSeeds != [], 0, false, false, connections, active)
  }

  function Exec(s0: State, trace: seq<Event>): State {
    if trace == [] then s0 else Step(Exec(s0, trace[..|trace| - 1]), trace[|trace| - 1])
  }

  ghost predicate Valid(s0: State, trace: seq<Event>) {
    trace == [] || (
      && Valid(s0, trace[..|trace| - 1])
      && Enabled(Exec(s0, trace[..|trace| - 1]), trace[|trace| - 1]))
  }

  // ---------------------------------------------------------------------------
  // Read off the trace

  /** How many requests have settled. */
  function Settled(trace: seq<Event>): nat {
    if trace == [] then 0 else Settled(trace[..|trace| - 1]) + if trace[|trace| - 1].Settle? then 1 else 0
  }

  predicate SaysDone(e: Event) {
    e.Settle? && e.outcome.Listed? && e.outcome.stillPending == []
  }

  /** The lists the server answered before the unmount. */
  function Lists(trace: seq<Event>): seq<seq<string>> {
    if trace == [] then [] else
    var was, e := trace[..|trace| - 1], trace[|trace| - 1];
    if e.Settle? && e.outcome.Listed? && e.outcome.list != [] && Unmount !in was then Lists(was) + [e.outcome.list]
    else Lists(was)
  }

  ghost predicate Inv(s: State, s0: State, trace: seq<Event>) {
    && (s.cancelled <==> Unmount in trace)
    && s.attempts == Settled(trace) + (if s.inFlight then 1 else 0)
    && (s.timer <==> s0.timer && Unmount !in trace && Settled(trace) < MAX_ATTEMPTS
                     && forall e <- trace :: !SaysDone(e))
    && (s.inFlight ==> Settled(trace) < MAX_ATTEMPTS)
    && s.connections == (if Lists(trace) == [] then s0.connections else Lists(trace)[|Lists(trace)| - 1])
  }

  lemma {:induction false} Reachable(s0: State, trace: seq<Event>)
    requires Valid(s0, trace) && s0.attempts == 0 && !s0.inFlight && !s0.cancelled
    ensures Inv(Exec(s0, trace), s0, trace)
  {
    if trace != [] {
      var was, e := trace[..|trace| - 1], trace[|trace| - 1];
      Reachable(s0, was);
      assert trace == was + [e];
      assert Unmount in trace <==> Unmount in was || e == Unmount;
      assert (forall x <- trace :: !SaysDone(x)) <==> (forall x <- was :: !SaysDone(x)) && !SaysDone(e);
    }
  }

  // ---------------------------------------------------------------------------
  // What every run keeps

  /**
   The timer runs exactly until the hook is unmounted, a reply says nothing is pending, or the
   last of thirty requests has settled; a refusal or an exception stops nothing by itself.
   */
  lemma RunsExactlyUntilDone(pendingSeeds: seq<string>, connections: seq<string>, active: Option<string>, trace: seq<Event>)
    requires Valid(Start(pendingSeeds, connections, active), trace)
    ensures Exec(Start(pendingSeeds, connections, active), trace).timer <==>
      && pendingSeeds != [] && Unmount !in trace && Settled(trace) < 30
      && forall e <- trace :: !SaysDone(e)
  {
    Reachable(Start(pendingSeeds, connections, active), trace);
  }

  /** Never more than thirty requests, and never two at once. */
  lemma RequestsAreBounded(pendingSeeds: seq<string>, connections: seq<string>, active: Option<string>, trace: seq<Event>)
    requires Valid(Start(pendingSeeds, connections, active), trace)
    ensures
      var s := Exec(Start(pendingSeeds, connections, active), trace);
      s.attempts <= 30 && Settled(trace) <= s.attempts <= Settled(trace) + 1
  {
    Reachable(Start(pendingSeeds, connections, active), trace);
  }

  /** The list is the last one the server answered before the unmount, and an empty answer takes nothing away. */
  lemma ShowsTheLastList(pendingSeeds: seq<string>, connections: seq<string>, active: Option<string>, trace: seq<Event>)
    requires Valid(Start(pendingSeeds, connections, active), trace)
    ensures
      Exec(Start(pendingSeeds, connections, active), trace).connections
        == if Lists(trace) == [] then connections else Lists(trace)[|Lists(trace)| - 1]
  {
    Reachable(Start(pendingSeeds, connections, active), trace);
  }

  lemma {:induction false} ListsAreNotEmpty(trace: seq<Event>)
    ensures forall i | 0 <= i < |Lists(trace)| :: Lists(trace)[i] != []
  {
    if trace != [] {
      ListsAreNotEmpty(trace[..|trace| - 1]);
    }
  }

  /** The poll never moves the reader off a connection, and puts one without a connection on the first of the first list. */
  lemma {:induction false} ActiveStays(s0: State, trace: seq<Event>)
    requires Valid(s0, trace) && s0.attempts == 0 && !s0.inFlight && !s0.cancelled
    ensures Lists(trace) != [] ==> Lists(trace)[0] != []
    ensures Exec(s0, trace).active ==
      if s0.active.Some? then s0.active else if Lists(trace) != [] then Some(Lists(trace)[0][0]) else None
  {
    ListsAreNotEmpty(trace);
    if trace != [] {
      var was := trace[..|trace| - 1];
      ActiveStays(s0, was);
      Reachable(s0, was);
      assert Lists(was) != [] ==> Lists(trace) != [] && Lists(trace)[0] == Lists(was)[0];
    }
  }

  // ---------------------------------------------------------------------------
  // The poll

  class Poll {
    var pollTimer: bool
    var attempts: nat
    var inFlight: bool
    var cancelled: bool
    var connections: seq<string>
    var activeConnection: Option<string>

    ghost function Now(): State
      reads this
    {
      State(pollTimer, attempts, inFlight, cancelled, connections, activeConnection)
    }

    constructor (pendingSeeds: seq<string>, connections: seq<string>, active: Option<string>)
      ensures Now() == Start(pendingSeeds, connections, active)
    {
      pollTimer, attempts, inFlight, cancelled := |pendingSeeds| > 0, 0, false, false;
      this.connections, activeConnection := connections, active;
    }

    method OnTick()
      modifies this
      ensures Now() == Step(old(Now()), Tick)
    {
      if inFlight { return; }
      inFlight := true;
      attempts := attempts + 1;
    }

    method StopPoll()
      modifies this`pollTimer
      ensures !pollTimer
    {
      pollTimer := false;
    }

    method OnSettled(outcome: Outcome)
      modifies this
      ensures Now() == Step(old(Now()), Settle(outcome))
    {
      if !cancelled && outcome.Listed? {
        if |outcome.list| > 0 {
          connections := outcome.list;
          if activeConnection.None? { activeConnection := Some(outcome.list[0]); }
        }
        if |outcome.stillPending| == 0 { StopPoll(); }
      }
      inFlight := false;
      if attempts >= MAX_ATTEMPTS { StopPoll(); }
    }

    method OnUnmount()
      modifies this
      ensures Now() == Step(old(Now()), Unmount)
    {
      cancelled := true;
      StopPoll();
    }
  }
}
