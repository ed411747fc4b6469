/** Exactly when the `loading` flag of `useMonitoringData` says whether a wanted request is on its way. */
module MonitoringLoading {
  import opened Options
  import opened Sequences
  import opened Monitoring

  /** A request is on its way that nothing has aborted. */
  ghost predicate Awaited(s: State) {
    exists r <- s.pending :: r.n !in s.aborted
  }

  ghost predicate Honest(s: State) {
    s.loading <==> Awaited(s)
  }

  predicate Settles(e: Event) {
    e.Reply? || e.Fail? || e.Cancelled?
  }

  /**
   What a step must not do: settle a request that was aborted while another is wanted, or take
   the connection away while one is.
   */
  ghost predicate KeepsHonest(s: State, e: Event) {
    && (Settles(e) ==> e.request.n !in s.aborted || !Awaited(s))
    && (e.Effects? && s.connection != s.connectionRef && s.connection.None? ==> !Awaited(s))
  }

  // ---------------------------------------------------------------------------
  // One step

  lemma FetchIsHonest(s: State)
    requires RequestsInv(s) && s.connectionRef.Some?
    ensures Honest(BeginFetch(s)) && BeginFetch(s).loading
  {
    assert NewRequest(s) in BeginFetch(s).pending && NewRequest(s).n !in BeginFetch(s).aborted;
  }

  lemma AbortEndsTheWait(s: State)
    requires RequestsInv(s)
    ensures !Awaited(Abort(s))
  {
  }

  lemma SettleIsHonestIff(s: State, e: Event)
    requires s.mounted && RequestsInv(s) && Enabled(s, e) && Settles(e) && Honest(s)
    ensures Honest(Step(s, e)) <==> e.request.n !in s.aborted || forall r <- s.pending :: r.n in s.aborted
  {
    var t := Step(s, e);
    assert !t.loading && t.pending == s.pending - {e.request} && t.aborted == s.aborted;
    if e.request.n in s.aborted && Awaited(s) {
      var r :| r in s.pending && r.n !in s.aborted;
      assert r in t.pending;
    }
  }

  lemma EffectsAreHonestIff(s: State)
    requires s.mounted && RequestsInv(s) && Honest(s)
    ensures Honest(RunEffects(s)) <==> KeepsHonest(s, Effects)
  {
    var t := s.(selectionRef := s.selection.seqNo, connectionRef := s.connection);
    if s.connection == s.connectionRef {
      assert Awaited(t) <==> Awaited(s);
    } else if s.connection.Some? {
      AbortRequests(t);
      FetchIsHonest(t);
      FetchIsHonest(Abort(t));
    } else {
      AbortEndsTheWait(t);
    }
  }

  /** A step from an honest state leaves it honest if and only if it does neither. */
  lemma StepIsHonestIff(s: State, e: Event)
    requires s.mounted && RequestsInv(s) && Enabled(s, e) && e != Unmount && Honest(s)
    ensures Honest(Step(s, e)) <==> KeepsHonest(s, e)
  {
    if Settles(e) {
      SettleIsHonestIff(s, e);
    } else if e.Effects? {
      EffectsAreHonestIff(s);
    } else if e.Fetch? && s.connectionRef.Some? {
      FetchIsHonest(s);
    } else {
      assert Awaited(Step(s, e)) <==> Awaited(s);
    }
  }

  /** In a run: after a settling event the flag is right exactly where it settled a wanted request or none is wanted. */
  lemma LoadingRightAfterIff(first: Option<Conn>, trace: seq<Event>, e: Event)
    requires Valid(first, trace) && Unmount !in trace && Enabled(Exec(first, trace), e) && Settles(e)
    requires Honest(Exec(first, trace))
    ensures
      var s := Exec(first, trace);
      Honest(Step(s, e)) <==> e.request.n !in s.aborted || forall r <- s.pending :: r.n in s.aborted
  {
    MountedUntilUnmount(first, trace);
    Reachable(first, trace);
    SettleIsHonestIff(Exec(first, trace), e);
  }

  // ---------------------------------------------------------------------------
  // Whole runs

  ghost predicate Orderly(first: Option<Conn>, trace: seq<Event>) {
    trace == [] || (
      && Orderly(first, trace[..|trace| - 1])
      && KeepsHonest(Exec(first, trace[..|trace| - 1]), trace[|trace| - 1]))
  }

  ghost predicate HonestAt(first: Option<Conn>, trace: seq<Event>) {
    Honest(Exec(first, trace))
  }

  ghost predicate AlwaysHonest(first: Option<Conn>, trace: seq<Event>) {
    forall k | 0 <= k <= |trace| :: HonestAt(first, trace[..k])
  }

  lemma AlwaysHonestSplits(first: Option<Conn>, was: seq<Event>, e: Event)
    ensures AlwaysHonest(first, was + [e]) <==> AlwaysHonest(first, was) && HonestAt(first, was + [e])
  {
    PrefixesOf(was, e);
    forall k | 0 <= k <= |was|
      ensures HonestAt(first, (was + [e])[..k]) <==> HonestAt(first, was[..k])
    {
      assert (was + [e])[..k] == was[..k];
    }
  }

  /**
   Over a whole run the flag is right at every point if and only if no aborted request settles
   while another is wanted, and no connection is taken away while a request for it is.
   */
  lemma {:induction false} LoadingAlwaysRightIff(first: Option<Conn>, trace: seq<Event>)
    requires Valid(first, trace) && Unmount !in trace
    ensures AlwaysHonest(first, trace) <==> Orderly(first, trace)
  {
    if trace != [] {
      var was, e := trace[..|trace| - 1], trace[|trace| - 1];
      assert trace == was + [e];
      LoadingAlwaysRightIff(first, was);
      AlwaysHonestSplits(first, was, e);
      MountedUntilUnmount(first, was);
      Reachable(first, was);
      assert was[..|was|] == was;
      if Honest(Exec(first, was)) {
        StepIsHonestIff(Exec(first, was), e);
      }
    } else {
      assert forall k | 0 <= k <= |trace| :: trace[..k] == [];
    }
  }

  /** Right or not, the flag is never stuck: once every request has settled it is off. */
  lemma LoadingEnds(first: Option<Conn>, trace: seq<Event>)
    requires Valid(first, trace) && Unmount !in trace && Exec(first, trace).pending == {}
    ensures !Exec(first, trace).loading
  {
    if Exec(first, trace).loading { LoadingMeansPending(first, trace); }
  }

  lemma {:induction false} LoadingMeansPending(first: Option<Conn>, trace: seq<Event>)
    requires Valid(first, trace) && Unmount !in trace && Exec(first, trace).loading
    ensures Exec(first, trace).pending != {}
  {
    if trace != [] {
      var was, e := trace[..|trace| - 1], trace[|trace| - 1];
      assert trace == was + [e] && e in trace;
      assert Unmount !in was;
      MountedUntilUnmount(first, was);
      StepPends(Exec(first, was), e);
      if Exec(first, was).loading {
        LoadingMeansPending(first, was);
      }
    }
  }

  lemma StepPends(s: State, e: Event)
    requires s.mounted && e != Unmount && Step(s, e).loading
    ensures s.loading && s.pending != {} ==> Step(s, e).pending != {}
    ensures !s.loading ==> Step(s, e).pending != {}
  {
    if e.Effects? || e.Fetch? {
      var t := s.(selectionRef := s.selection.seqNo, connectionRef := s.connection);
      assert s.pending <= Step(s, e).pending;
      assert NewRequests(t) <= BeginFetch(t).pending && NewRequests(s) <= BeginFetch(s).pending;
    }
  }
}
