/** What every interleaving of the runs of `useQueryExecution` keeps. */
module QueryTheorems {
  import opened Options
  import opened QueryRuns

  // ---------------------------------------------------------------------------
  // One tab's share of the state

  function Only<V>(m: map<TabId, V>, t: TabId): map<TabId, V> {
    if t in m then map[t := m[t]] else map[]
  }

  function Of(runs: set<Run>, t: TabId): set<Run> {
    set r <- runs | r.tab == t
  }

  /** What is left of the state when every other tab and its runs are taken away. */
  function Restrict(s: State, t: TabId): State {
    State(Only(s.tabs, t), Only(s.runs, t), Only(s.lastRun, t), Of(s.aborted, t),
          Of(s.started, t), Of(s.open, t), Of(s.settling, t), Of(s.planning, t))
  }

  predicate Concerns(e: Event, t: TabId) {
    e.Unmount? || TabOf(e) == Some(t)
  }

  ghost predicate SlotsOwned(s: State) {
    forall t <- s.runs :: s.runs[t].tab == t
  }

  lemma SetFlagsOn(s: State, u: TabId, x: bool, y: bool, t: TabId)
    ensures Restrict(SetFlags(s, u, x, y), t) == if u == t then SetFlags(Restrict(s, t), u, x, y) else Restrict(s, t)
  {
  }

  lemma AbortOn(s: State, u: TabId, t: TabId)
    requires SlotsOwned(s)
    ensures Restrict(Abort(s, u), t) == if u == t then Abort(Restrict(s, t), u) else Restrict(s, t)
  {
    if u in s.runs {
      var all := s.aborted + {s.runs[u]};
      assert Of(all, t) == if u == t then Of(s.aborted, t) + {s.runs[u]} else Of(s.aborted, t);
    }
  }

  lemma CommitOn(s: State, r: Run, w: Write, t: TabId)
    ensures Restrict(Commit(s, r, w), t) == if r.tab == t then Commit(Restrict(s, t), r, w) else Restrict(s, t)
  {
  }

  lemma FinaliseOn(s: State, r: Run, t: TabId)
    ensures Restrict(Finalise(s, r), t) == if r.tab == t then Finalise(Restrict(s, t), r) else Restrict(s, t)
  {
    assert Of(s.open - {r}, t) == if r.tab == t then Of(s.open, t) - {r} else Of(s.open, t);
    assert Of(s.settling - {r}, t) == if r.tab == t then Of(s.settling, t) - {r} else Of(s.settling, t);
    var runs := s.runs - {r.tab};
    assert Only(runs, t) == if r.tab == t then map[] else Only(s.runs, t);
    assert Only(s.runs, t) - {t} == map[];
  }

  lemma UnmountOn(s: State, t: TabId)
    requires SlotsOwned(s)
    ensures Restrict(Step(s, Unmount), t) == Step(Restrict(s, t), Unmount)
  {
    var all, mine := s.runs.Values, Only(s.runs, t).Values;
    forall r
      ensures r in Of(s.aborted + all, t) <==> r in Of(s.aborted, t) + mine
    {
      if r in all && r.tab == t {
        var u :| u in s.runs && s.runs[u] == r;
        assert Only(s.runs, t)[t] == r;
      }
      if r in mine {
        assert r == s.runs[t];
      }
    }
  }

  /** An event of another tab changes nothing here; one of this tab needs nothing else. */
  lemma StepOn(s: State, e: Event, t: TabId)
    requires SlotsOwned(s)
    ensures Restrict(Step(s, e), t) == if Concerns(e, t) then Step(Restrict(s, t), e) else Restrict(s, t)
  {
    match e
    case Unmount => UnmountOn(s, t);
    case Cancel(u) => AbortOn(s, u, t);
    case Refuse(u) => SetFlagsOn(s, u, false, false, t);
    case Finish(r) => FinaliseOn(s, r, t);
    case Fail(r) => CommitOn(s, r, ClearFlags, t); FinaliseOn(Commit(s, r, ClearFlags), r, t);
    case Decline(r, a) =>
      var w := if a.Some? then AwaitApproval(a.value) else ClearFlags;
      CommitOn(s, r, w, t);
      FinaliseOn(Commit(s, r, w), r, t);
    case PlanLands(r, plan) =>
      CommitOn(s, r, ShowPlan(plan), t);
      assert Of(s.planning - {r}, t) == if r.tab == t then Of(s.planning, t) - {r} else Of(s.planning, t);
    case Reply(r, page, plan) => ReplyOn(s, r, page, plan, t);
    case Start(r) => StartOn(s, r, t);
  }

  lemma ReplyOn(s: State, r: Run, page: Page, plan: Plan, t: TabId)
    ensures Restrict(ReplyRun(s, r, page, plan), t)
         == if r.tab == t then ReplyRun(Restrict(s, t), r, page, plan) else Restrict(s, t)
  {
    var s1 := if r.wantsPlan then s.(planning := s.planning + {r}) else s;
    assert Of(s.planning + {r}, t) == if r.tab == t then Of(s.planning, t) + {r} else Of(s.planning, t);
    CommitOn(s1, r, ShowReply(page, plan), t);
    var s2 := Commit(s1, r, ShowReply(page, plan));
    if r.sandbox {
      assert Of(s2.open - {r}, t) == if r.tab == t then Of(s2.open, t) - {r} else Of(s2.open, t);
      assert Of(s2.settling + {r}, t) == if r.tab == t then Of(s2.settling, t) + {r} else Of(s2.settling, t);
    } else {
      FinaliseOn(s2, r, t);
    }
  }

  lemma StartOn(s: State, r: Run, t: TabId)
    requires SlotsOwned(s)
    ensures Restrict(StartRun(s, r), t) == if r.tab == t then StartRun(Restrict(s, t), r) else Restrict(s, t)
  {
    var s1 := SetFlags(s, r.tab, !r.IsLoadMore(), r.IsLoadMore());
    SetFlagsOn(s, r.tab, !r.IsLoadMore(), r.IsLoadMore(), t);
    AbortOn(s1, r.tab, t);
    RegisterOn(Abort(s1, r.tab), r, t);
  }

  lemma RegisterOn(s: State, r: Run, t: TabId)
    ensures Restrict(Register(s, r), t) == if r.tab == t then Register(Restrict(s, t), r) else Restrict(s, t)
  {
    assert Of(s.started + {r}, t) == if r.tab == t then Of(s.started, t) + {r} else Of(s.started, t);
    assert Of(s.open + {r}, t) == if r.tab == t then Of(s.open, t) + {r} else Of(s.open, t);
  }

  lemma TabInvOf(s: State, l: Ledger, t: TabId)
    ensures TabInv(s, l, t) <==> TabInv(Restrict(s, t), l, t)
  {
    var r := Restrict(s, t);
    assert OwnerAt(s, l, t) <==> OwnerAt(r, l, t);
    if OwnerAt(s, l, t) {
      assert SlotAt(s, l, t) <==> SlotAt(r, l, t);
    }
  }

  // ---------------------------------------------------------------------------
  // One step keeps the invariant, tab by tab

  lemma KnownStart(s: State, r: Run)
    requires Known(s) && Enabled(s, Start(r))
    ensures Known(StartRun(s, r))
  {
    var s' := StartRun(s, r);
    assert s'.started == s.started + {r} && s'.open == s.open + {r};
    assert s'.settling == s.settling && s'.planning == s.planning;
  }

  lemma KnownReply(s: State, r: Run, page: Page, plan: Plan)
    requires Known(s) && r in s.open
    ensures Known(ReplyRun(s, r, page, plan))
  {
    var s' := ReplyRun(s, r, page, plan);
    assert s'.started == s.started && s'.open == s.open - {r};
    assert s'.settling <= s.settling + {r} && s'.planning <= s.planning + {r};
  }

  lemma KnownStep(s: State, e: Event)
    requires Known(s) && Enabled(s, e)
    ensures Known(Step(s, e))
  {
    match e
    case Start(r) => KnownStart(s, r);
    case Reply(r, page, plan) => KnownReply(s, r, page, plan);
    case _ =>
      var s' := Step(s, e);
      assert s'.started == s.started && s'.open <= s.open;
      assert s'.settling <= s.settling && s'.planning <= s.planning;
  }

  /** While ids are unique, comparing ids is comparing runs. */
  lemma SupersededMeans(s: State, l: Ledger, r: Run)
    requires Known(s) && OwnerAt(s, l, r.tab) && r in s.started
    ensures Superseded(s, r) <==> l.latest != Some(r)
  {
  }

  lemma StartKeeps(s: State, l: Ledger, r: Run)
    requires Known(s) && Enabled(s, Start(r)) && TabInv(s, l, r.tab)
    ensures TabInv(StartRun(s, r), Note(l, r.tab, Start(r)), r.tab)
  {
  }

  /** A run that ends without rows: failed, cancelled, awaiting approval or rolled back. */
  lemma EndKeeps(s: State, l: Ledger, e: Event, r: Run)
    requires Known(s) && Enabled(s, e) && TabInv(s, l, r.tab)
    requires e == Fail(r) || e == Finish(r) || (e.Decline? && e.run == r)
    ensures TabInv(Step(s, e), Note(l, r.tab, e), r.tab)
  {
    SupersededMeans(s, l, r);
  }

  /** The tab after a reply shows one page more, or the first page, or none. */
  lemma ReplyPages(r: Run, page: Page, plan: Plan, tab: Tab, pages: seq<(nat, seq<Row>)>)
    requires Contiguous(pages) && TabPaged(tab, pages)
    requires r.IsLoadMore() ==> !r.isExplain && tab.result.Some? && r.offset == |tab.result.value.rows|
    ensures
      var pages' := if r.IsLoadMore() then pages + [(r.offset, page.rows)]
                    else if r.isExplain then [] else [(0, page.rows)];
      Contiguous(pages') && TabPaged(Apply(ShowReply(page, plan), r, tab), pages')
  {
    FirstPage(page.rows);
    if r.IsLoadMore() {
      AppendPage(pages, r.offset, page.rows);
    }
  }

  lemma ReplyKeepsPaging(s: State, l: Ledger, e: Event)
    requires e.Reply? && Known(s) && Enabled(s, e) && OwnerAt(s, l, e.run.tab) && PagingAt(s, l, e.run.tab)
    ensures PagingAt(Step(s, e), Note(l, e.run.tab, e), e.run.tab)
  {
    var r := e.run;
    SupersededMeans(s, l, r);
    if r.tab in s.tabs && l.latest == Some(r) {
      ReplyPages(r, e.page, e.plan, s.tabs[r.tab], l.pages);
    } else if l.latest == Some(r) {
      FirstPage(e.page.rows);
    }
  }

  lemma ReplyKeepsOthers(s: State, l: Ledger, e: Event)
    requires e.Reply? && Known(s) && Enabled(s, e) && TabInv(s, l, e.run.tab)
    ensures
      var s', l', t := Step(s, e), Note(l, e.run.tab, e), e.run.tab;
      OwnerAt(s', l', t) && SlotAt(s', l', t) && SpinnerAt(s', l', t) && PlanAt(s', l')
  {
    SupersededMeans(s, l, e.run);
  }

  lemma ReplyKeeps(s: State, l: Ledger, e: Event)
    requires e.Reply? && Known(s) && Enabled(s, e) && TabInv(s, l, e.run.tab)
    ensures TabInv(Step(s, e), Note(l, e.run.tab, e), e.run.tab)
  {
    ReplyKeepsPaging(s, l, e);
    ReplyKeepsOthers(s, l, e);
  }

  lemma AppendPage(pages: seq<(nat, seq<Row>)>, offset: nat, rows: seq<Row>)
    requires Contiguous(pages) && offset == |Concat(pages)|
    ensures Contiguous(pages + [(offset, rows)])
    ensures Concat(pages + [(offset, rows)]) == Concat(pages) + rows
  {
    var all := pages + [(offset, rows)];
    assert all[..|pages|] == pages;
    forall i | 0 <= i < |all|
      ensures all[i].0 == |Concat(all[..i])|
    {
      if i < |pages| {
        assert all[..i] == pages[..i];
      }
    }
  }

  lemma FirstPage(rows: seq<Row>)
    ensures Contiguous([(0, rows)]) && Concat([(0, rows)]) == rows
  {
    AppendPage([], 0, rows);
    assert [] + [(0, rows)] == [(0, rows)];
  }

  lemma TabStep(s: State, l: Ledger, e: Event, t: TabId)
    requires Known(s) && Enabled(s, e) && SlotsOwned(s) && TabInv(s, l, t)
    ensures TabInv(Step(s, e), Note(l, t, e), t)
  {
    if !Concerns(e, t) {
      StepOn(s, e, t);
      TabInvOf(s, l, t);
      TabInvOf(Step(s, e), l, t);
    } else {
      match e
      case Start(r) => StartKeeps(s, l, r);
      case Reply(_, _, _) => ReplyKeeps(s, l, e);
      case Decline(r, _) => EndKeeps(s, l, e, r);
      case Fail(r) => EndKeeps(s, l, e, r);
      case Finish(r) => EndKeeps(s, l, e, r);
      case PlanLands(r, _) => SupersededMeans(s, l, r);
      case Cancel(_) =>
      case Refuse(_) =>
      case Unmount =>
    }
  }

  lemma InvSlotsOwned(s: State, trace: seq<Event>)
    requires Inv(s, trace)
    ensures SlotsOwned(s)
  {
    forall t | t in s.runs
      ensures s.runs[t].tab == t
    {
      assert TabInv(s, LedgerOf(trace, t), t);
    }
  }

  /** Every reachable state satisfies the invariant. */
  lemma {:induction false} Reachable(s0: State, trace: seq<Event>)
    requires Init(s0) && Valid(s0, trace)
    ensures Inv(Exec(s0, trace), trace) && SlotsOwned(Exec(s0, trace))
  {
    if trace != [] {
      var before, e := Front(trace), Last(trace);
      Reachable(s0, before);
      var s := Exec(s0, before);
      KnownStep(s, e);
      forall t
        ensures TabInv(Step(s, e), LedgerOf(trace, t), t)
      {
        TabStep(s, LedgerOf(before, t), e, t);
      }
    }
    InvSlotsOwned(Exec(s0, trace), trace);
  }

  // ---------------------------------------------------------------------------
  // Cancel

  /**
   Cancel aborts the tab's latest run if that one is unfinished, and no other run; after it
   every unfinished run of the tab has been aborted.
   */
  lemma CancelStopsTheLatest(s0: State, trace: seq<Event>, t: TabId)
    requires Init(s0) && Valid(s0, trace)
    ensures
      var s, latest := Exec(s0, trace), Latest(trace, t);
      var s' := Step(s, Cancel(t));
      && s' == s.(aborted := if latest.Some? && latest.value in s.Unfinalised()
                             then s.aborted + {latest.value} else s.aborted)
      && (forall r <- s.Unfinalised() :: r.tab == t ==> r in s'.aborted)
  {
    Reachable(s0, trace);
    assert TabInv(Exec(s0, trace), LedgerOf(trace, t), t);
  }

  // ---------------------------------------------------------------------------
  // The latest run owns the tab

  /** What a run's closure does to its tab goes through `commitToTab`. */
  predicate IsWrite(e: Event) {
    e.Reply? || e.Decline? || e.Fail? || e.PlanLands?
  }

  /** A step that is neither a start nor a refusal writes only through `commitToTab`. */
  lemma StepTabs(s: State, e: Event)
    requires !e.Start? && !e.Refuse?
    requires IsWrite(e) ==> Superseded(s, e.run)
    ensures Step(s, e).tabs == s.tabs
  {
  }

  /**
   Whatever changes a tab is a start or a refusal on that tab, or a write by the run that
   was last started on it.
   */
  lemma OnlyTheOwnerWrites(s0: State, trace: seq<Event>, e: Event, t: TabId)
    requires Init(s0) && Valid(s0, trace) && Enabled(Exec(s0, trace), e)
    requires Get(Step(Exec(s0, trace), e).tabs, t) != Get(Exec(s0, trace).tabs, t)
    ensures
      || e == Refuse(t)
      || (e.Start? && e.run.tab == t)
      || (IsWrite(e) && Latest(trace, t) == Some(e.run))
  {
    Reachable(s0, trace);
    var s := Exec(s0, trace);
    assert TabInv(s, LedgerOf(trace, t), t);
    StepOn(s, e, t);
    assert !Concerns(e, t) ==> Only(Step(s, e).tabs, t) == Only(s.tabs, t);
    if IsWrite(e) && e.run.tab == t {
      SupersededMeans(s, LedgerOf(trace, t), e.run);
      if Superseded(s, e.run) { StepTabs(s, e); }
    } else if !e.Start? && !e.Refuse? && !IsWrite(e) {
      StepTabs(s, e);
    }
  }

  /** No run was started on `t`, and the hook was not unmounted, from `a` on. */
  ghost predicate Quiet(trace: seq<Event>, a: nat, t: TabId) {
    forall k | a <= k < |trace| :: trace[k] != Unmount && (trace[k].Start? ==> trace[k].run.tab != t)
  }

  /** The owner of a tab is the run of the last start on it. */
  lemma {:induction false} LatestStarted(trace: seq<Event>, t: TabId) returns (a: nat)
    requires Latest(trace, t).Some?
    ensures a < |trace| && trace[a] == Start(Latest(trace, t).value) && Quiet(trace, a + 1, t)
    ensures trace[a].run.tab == t
  {
    var e := Last(trace);
    if e.Start? && e.run.tab == t {
      a := |trace| - 1;
    } else {
      a := LatestStarted(Front(trace), t);
      forall k | a + 1 <= k < |trace|
        ensures trace[k] != Unmount && (trace[k].Start? ==> trace[k].run.tab != t)
      {
        if k < |trace| - 1 {
          assert Front(trace)[k] == trace[k];
        }
      }
    }
  }

  /** While a tab is quiet its owner stays. */
  lemma {:induction false} QuietKeepsOwner(trace: seq<Event>, i: nat, t: TabId)
    requires i <= |trace| && Quiet(trace, i, t)
    ensures Latest(trace, t) == Latest(trace[..i], t)
  {
    if i == |trace| {
      assert trace[..i] == trace;
    } else {
      var front := Front(trace);
      assert forall k | i <= k < |front| :: front[k] == trace[k];
      QuietKeepsOwner(front, i, t);
      assert front[..i] == trace[..i];
      var e := Last(trace);
      assert e == trace[|trace| - 1];
    }
  }

  /**
   Owners only move forward in start order: the run that owns a tab later was not started
   before the run that owned it earlier.
   */
  lemma OwnersMoveForward(trace: seq<Event>, i: nat, j: nat, t: TabId)
    returns (a: nat, b: nat)
    requires i <= j <= |trace|
    requires Latest(trace[..i], t).Some? && Latest(trace[..j], t).Some?
    ensures a <= b < |trace|
    ensures trace[a] == Start(Latest(trace[..i], t).value)
    ensures trace[b] == Start(Latest(trace[..j], t).value)
  {
    a := LatestStarted(trace[..i], t);
    b := LatestStarted(trace[..j], t);
    if b < i {
      assert Quiet(trace[..j], i, t) by {
        assert Quiet(trace[..j], b + 1, t);
      }
      QuietKeepsOwner(trace[..j], i, t);
      assert trace[..j][..i] == trace[..i];
      b := a;
    }
  }

  /**
   Two writes to one tab, in the order they happen, are by runs in the order they were
   started: neither the rows nor the plan on screen ever go back to an older run.
   */
  lemma WritesMoveForward(s0: State, trace: seq<Event>, i: nat, j: nat, t: TabId)
    returns (a: nat, b: nat)
    requires Init(s0) && Valid(s0, trace) && i <= j < |trace|
    requires IsWrite(trace[i]) && IsWrite(trace[j])
    requires ChangesAt(s0, trace, i, t) && ChangesAt(s0, trace, j, t)
    ensures a <= b < |trace|
    ensures trace[a] == Start(trace[i].run) && trace[b] == Start(trace[j].run)
  {
    ValidAt(s0, trace, i);
    ValidAt(s0, trace, j);
    OnlyTheOwnerWrites(s0, trace[..i], trace[i], t);
    OnlyTheOwnerWrites(s0, trace[..j], trace[j], t);
    a, b := OwnersMoveForward(trace, i, j, t);
  }

  /** Step `i` of the trace changes tab `t`. */
  ghost predicate ChangesAt(s0: State, trace: seq<Event>, i: nat, t: TabId)
    requires i < |trace|
  {
    Get(Step(Exec(s0, trace[..i]), trace[i]).tabs, t) != Get(Exec(s0, trace[..i]).tabs, t)
  }

  lemma {:induction false} ValidAt(s0: State, trace: seq<Event>, i: nat)
    requires Valid(s0, trace) && i < |trace|
    ensures Valid(s0, trace[..i]) && Enabled(Exec(s0, trace[..i]), trace[i])
  {
    if i < |trace| - 1 {
      ValidAt(s0, Front(trace), i);
      assert Front(trace)[..i] == trace[..i];
    }
  }

  lemma StepStarted(s: State, e: Event)
    ensures Step(s, e).started == if e.Start? then s.started + {e.run} else s.started
  {
  }

  lemma {:induction false} StartedStays(s0: State, trace: seq<Event>, a: nat, r: Run)
    requires Valid(s0, trace) && a < |trace| && trace[a] == Start(r)
    ensures r in Exec(s0, trace).started
  {
    StepStarted(Exec(s0, Front(trace)), Last(trace));
    if a < |trace| - 1 {
      StartedStays(s0, Front(trace), a, r);
    }
  }

  /** After the hook is unmounted, no run that was started before it writes anything. */
  lemma SilentAfterUnmount(s0: State, trace: seq<Event>, a: nat, k: nat, j: nat, t: TabId)
    requires Init(s0) && Valid(s0, trace) && a < k < j < |trace|
    requires trace[a].Start? && trace[k] == Unmount
    requires IsWrite(trace[j]) && trace[j].run == trace[a].run
    ensures !ChangesAt(s0, trace, j, t)
  {
    if ChangesAt(s0, trace, j, t) {
      ValidAt(s0, trace, j);
      OnlyTheOwnerWrites(s0, trace[..j], trace[j], t);
      var b := LatestStarted(trace[..j], t);
      assert trace[..j][k] == Unmount;
      ValidAt(s0, trace, b);
      StartedStays(s0, trace[..b], a, trace[a].run);
      assert false;
    }
  }

  // ---------------------------------------------------------------------------
  // The spinner

  /**
   A tab's two flags say exactly which run its spinner is waiting for: they are never both
   set, and until the hook is unmounted that run is the tab's latest, still without a reply.
   */
  lemma SpinnerShowsTheOwner(s0: State, trace: seq<Event>, t: TabId)
    requires Init(s0) && Valid(s0, trace) && t in Exec(s0, trace).tabs
    ensures
      var s, awaited := Exec(s0, trace), LedgerOf(trace, t).awaited;
      && !(s.tabs[t].isExecuting && s.tabs[t].isLoadingMore)
      && (s.tabs[t].isExecuting <==> awaited.Some? && !awaited.value.IsLoadMore())
      && (s.tabs[t].isLoadingMore <==> awaited.Some? && awaited.value.IsLoadMore())
      && (awaited.Some? && Unmount !in trace ==> Latest(trace, t) == awaited && awaited.value in s.open)
  {
    Reachable(s0, trace);
    assert TabInv(Exec(s0, trace), LedgerOf(trace, t), t);
    if LedgerOf(trace, t).awaited.Some? && Unmount !in trace {
      AwaitedIsOwned(trace, t);
    }
  }

  lemma {:induction false} AwaitedIsOwned(trace: seq<Event>, t: TabId)
    requires Unmount !in trace && LedgerOf(trace, t).awaited.Some?
    ensures Latest(trace, t).Some?
  {
    var e := Last(trace);
    assert e in trace;
    if !(e.Start? && e.run.tab == t) {
      AwaitedIsOwned(Front(trace), t);
    }
  }

  /** Once every run of a mounted hook has finalised, no tab spins. */
  lemma NoStuckSpinner(s0: State, trace: seq<Event>, t: TabId)
    requires Init(s0) && Valid(s0, trace) && t in Exec(s0, trace).tabs
    requires Unmount !in trace && Of(Exec(s0, trace).Unfinalised(), t) == {}
    ensures !Exec(s0, trace).tabs[t].isExecuting && !Exec(s0, trace).tabs[t].isLoadingMore
  {
    SpinnerShowsTheOwner(s0, trace, t);
    Reachable(s0, trace);
    assert TabInv(Exec(s0, trace), LedgerOf(trace, t), t);
    var awaited := LedgerOf(trace, t).awaited;
    assert forall r :: awaited == Some(r) ==> r in Of(Exec(s0, trace).Unfinalised(), t);
  }

  // ---------------------------------------------------------------------------
  // Paging

  /**
   A tab that shows a result shows the pages since the last run that replaced it, one after
   another, and each of them was asked for at exactly the count already held.
   */
  lemma PagingConserved(s0: State, trace: seq<Event>, t: TabId)
    requires Init(s0) && Valid(s0, trace) && t in Exec(s0, trace).tabs
    ensures
      var tab, pages := Exec(s0, trace).tabs[t], LedgerOf(trace, t).pages;
      && Contiguous(pages)
      && (tab.result.Some? <==> pages != [])
      && (tab.result.Some? ==>
            && tab.result.value.rows == Concat(pages)
            && tab.allRows == Some(tab.result.value.rows)
            && tab.currentOffset == |tab.result.value.rows|)
  {
    Reachable(s0, trace);
    assert TabInv(Exec(s0, trace), LedgerOf(trace, t), t);
  }

  // ---------------------------------------------------------------------------
  // Plans

  /** A background plan that reaches the tab finds its own run's rows on screen. */
  lemma PlanLandsOnItsOwnRows(s0: State, trace: seq<Event>, r: Run, plan: Plan)
    requires Init(s0) && Valid(s0, trace + [PlanLands(r, plan)])
    ensures
      var before, after := Exec(s0, trace), Exec(s0, trace + [PlanLands(r, plan)]);
      if Latest(trace, r.tab) == Some(r)
      then
        && LedgerOf(trace, r.tab).shown == Some(r)
        && (r.tab in before.tabs ==> after.tabs[r.tab] == before.tabs[r.tab].(explainPlan := Some(plan)))
      else after.tabs == before.tabs
  {
    var e := PlanLands(r, plan);
    assert Front(trace + [e]) == trace && Last(trace + [e]) == e;
    Reachable(s0, trace);
    var s := Exec(s0, trace);
    assert TabInv(s, LedgerOf(trace, r.tab), r.tab);
    SupersededMeans(s, LedgerOf(trace, r.tab), r);
  }

  // ---------------------------------------------------------------------------
  // Tabs do not interfere

  /** The trace with every event of the other tabs deleted. */
  function Keep(trace: seq<Event>, t: TabId): seq<Event> {
    if trace == [] then []
    else if Concerns(Last(trace), t) then Keep(Front(trace), t) + [Last(trace)]
    else Keep(Front(trace), t)
  }

  lemma EnabledOn(s: State, s': State, e: Event, t: TabId)
    requires Enabled(s, e) && Concerns(e, t)
    requires Restrict(s, t) == Restrict(s', t) && s'.started == Of(s.started, t)
    ensures Enabled(s', e)
  {
    assert Only(s.tabs, t) == Only(s'.tabs, t);
    if e.Start? {
      assert t in s.tabs ==> Only(s.tabs, t)[t] == s.tabs[t];
      assert t in s'.tabs ==> Only(s'.tabs, t)[t] == s'.tabs[t];
    } else if e.Reply? || e.Decline? || e.Fail? || e.Finish? || e.PlanLands? {
      assert e.run in s.open <==> e.run in Of(s.open, t);
      assert e.run in s'.open <==> e.run in Of(s'.open, t);
      assert e.run in s.settling <==> e.run in Of(s.settling, t);
      assert e.run in s'.settling <==> e.run in Of(s'.settling, t);
      assert e.run in s.planning <==> e.run in Of(s.planning, t);
      assert e.run in s'.planning <==> e.run in Of(s'.planning, t);
    }
  }

  /**
   Deleting every event of the other tabs leaves a trace the hook can produce, after which
   this tab, its owner, its runs and the run its Cancel would stop are exactly the same.
   */
  lemma {:induction false} TabsDoNotInterfere(s0: State, trace: seq<Event>, t: TabId)
    requires Init(s0) && Valid(s0, trace)
    ensures Valid(s0, Keep(trace, t))
    ensures Restrict(Exec(s0, Keep(trace, t)), t) == Restrict(Exec(s0, trace), t)
    ensures Exec(s0, Keep(trace, t)).started == Of(Exec(s0, trace).started, t)
  {
    if trace != [] {
      var before, e := Front(trace), Last(trace);
      TabsDoNotInterfere(s0, before, t);
      var s, s' := Exec(s0, before), Exec(s0, Keep(before, t));
      Reachable(s0, before);
      Reachable(s0, Keep(before, t));
      StepOn(s, e, t);
      if Concerns(e, t) {
        EnabledOn(s, s', e, t);
        StepOn(s', e, t);
        assert Front(Keep(trace, t)) == Keep(before, t) && Last(Keep(trace, t)) == e;
        StartedOn(s, s', e, t);
      } else {
        assert Of(Step(s, e).started, t) == Restrict(Step(s, e), t).started;
      }
    }
  }

  lemma StartedOn(s: State, s': State, e: Event, t: TabId)
    requires Concerns(e, t) && s'.started == Of(s.started, t)
    ensures Step(s', e).started == Of(Step(s, e).started, t)
  {
    StepStarted(s, e);
    StepStarted(s', e);
    if e.Start? {
      assert Of(s.started + {e.run}, t) == Of(s.started, t) + {e.run};
    }
  }

  /** In particular the tab on screen and the run Cancel would stop. */
  lemma TabUnaffectedByOthers(s0: State, trace: seq<Event>, t: TabId)
    requires Init(s0) && Valid(s0, trace)
    ensures
      var s, s' := Exec(s0, trace), Exec(s0, Keep(trace, t));
      && Get(s'.tabs, t) == Get(s.tabs, t)
      && Get(s'.runs, t) == Get(s.runs, t)
      && Get(s'.lastRun, t) == Get(s.lastRun, t)
  {
    TabsDoNotInterfere(s0, trace, t);
    var s, s' := Exec(s0, trace), Exec(s0, Keep(trace, t));
    OnlyGet(s.tabs, s'.tabs, t);
    OnlyGet(s.runs, s'.runs, t);
    OnlyGet(s.lastRun, s'.lastRun, t);
  }

  lemma OnlyGet<V>(m: map<TabId, V>, m': map<TabId, V>, t: TabId)
    requires Only(m, t) == Only(m', t)
    ensures Get(m, t) == Get(m', t)
  {
    assert t in Only(m, t) <==> t in m;
    assert t in Only(m', t) <==> t in m';
    if t in m {
      assert Only(m, t)[t] == m[t] && Only(m', t)[t] == m'[t];
    }
  }
}
