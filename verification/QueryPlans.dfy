/** Whose plan a tab shows, and exactly when it is the plan of the rows beside it. */
module QueryPlans {
  import opened Options
  import opened QueryRuns
  import opened QueryTheorems

  // ---------------------------------------------------------------------------
  // The plan's owner, read off the trace

  /** The plan a run brings to the tab, if it still owns it: its background plan, or an explain's reply. */
  predicate BringsPlan(e: Event, latest: Option<Run>) {
    (e.PlanLands? || (e.Reply? && e.run.isExplain)) && latest == Some(e.run)
  }

  /** The run whose plan landed last on the tab, and that plan. */
  function PlanOf(trace: seq<Event>, t: TabId): Option<(Run, Plan)> {
    if trace == [] then None
    else if BringsPlan(Last(trace), Latest(Front(trace), t)) then Some((Last(trace).run, Last(trace).plan))
    else PlanOf(Front(trace), t)
  }

  /** The run's own plan reached the tab. */
  ghost predicate OwnPlanLanded(trace: seq<Event>, t: TabId, r: Run) {
    exists k | 0 <= k < |trace| :: LandsAt(trace, k, t, r)
  }

  ghost predicate LandsAt(trace: seq<Event>, k: nat, t: TabId, r: Run)
    requires k < |trace|
  {
    BringsPlan(trace[k], Latest(trace[..k], t)) && trace[k].run == r
  }

  lemma LandedSplits(trace: seq<Event>, t: TabId, r: Run)
    requires trace != []
    ensures OwnPlanLanded(trace, t, r) <==>
      OwnPlanLanded(Front(trace), t, r) || (BringsPlan(Last(trace), Latest(Front(trace), t)) && Last(trace).run == r)
  {
    var n := |trace| - 1;
    forall k | 0 <= k < n
      ensures LandsAt(trace, k, t, r) <==> LandsAt(Front(trace), k, t, r)
    {
      assert trace[..k] == Front(trace)[..k];
    }
    assert LandsAt(trace, n, t, r) <==> BringsPlan(Last(trace), Latest(Front(trace), t)) && Last(trace).run == r;
  }

  // ---------------------------------------------------------------------------
  // The plan on screen is its owner's

  function PlanShown(s: State, t: TabId): Option<Plan> {
    if t in s.tabs then s.tabs[t].explainPlan else None
  }

  function PlanAfter(w: Write, r: Run, before: Option<Plan>): Option<Plan> {
    match w
    case ShowPlan(plan) => Some(plan)
    case ShowReply(_, plan) => if r.isExplain then Some(plan) else before
    case _ => before
  }

  lemma CommitPlan(s: State, r: Run, w: Write, t: TabId)
    requires w.ShowReply? && r.IsLoadMore() ==> !r.isExplain
    ensures Commit(s, r, w).tabs.Keys == s.tabs.Keys
    ensures PlanShown(Commit(s, r, w), t) ==
      if t in s.tabs && t == r.tab && !Superseded(s, r) then PlanAfter(w, r, PlanShown(s, t)) else PlanShown(s, t)
  {
  }

  lemma WritePlan(s: State, e: Event, t: TabId)
    requires IsWrite(e) && WellFormed(e.run)
    ensures Step(s, e).tabs.Keys == s.tabs.Keys
    ensures PlanShown(Step(s, e), t) ==
      if t in s.tabs && t == e.run.tab && !Superseded(s, e.run) && (e.PlanLands? || (e.Reply? && e.run.isExplain))
      then Some(e.plan) else PlanShown(s, t)
  {
    match e
    case Fail(r) => CommitPlan(s, r, ClearFlags, t);
    case Decline(r, a) => CommitPlan(s, r, if a.Some? then AwaitApproval(a.value) else ClearFlags, t);
    case PlanLands(r, plan) => CommitPlan(s, r, ShowPlan(plan), t);
    case Reply(r, page, plan) =>
      CommitPlan(if r.wantsPlan then s.(planning := s.planning + {r}) else s, r, ShowReply(page, plan), t);
  }

  lemma OtherPlan(s: State, e: Event, t: TabId)
    requires !IsWrite(e)
    ensures Step(s, e).tabs.Keys == s.tabs.Keys && PlanShown(Step(s, e), t) == PlanShown(s, t)
  {
  }

  lemma StepPlan(s: State, l: Ledger, e: Event, t: TabId)
    requires Known(s) && Enabled(s, e) && TabInv(s, l, t)
    ensures t in Step(s, e).tabs <==> t in s.tabs
    ensures t in s.tabs ==>
      PlanShown(Step(s, e), t) == if BringsPlan(e, l.latest) then Some(e.plan) else PlanShown(s, t)
  {
    if IsWrite(e) {
      WritePlan(s, e, t);
      if e.run.tab == t { SupersededMeans(s, l, e.run); }
    } else {
      OtherPlan(s, e, t);
    }
  }

  /** In every reachable state a tab shows the plan that landed on it last, of the run that owned it then. */
  lemma {:induction false} PlanIsItsOwners(s0: State, trace: seq<Event>, t: TabId)
    requires Init(s0) && Valid(s0, trace)
    ensures t in Exec(s0, trace).tabs <==> t in s0.tabs
    ensures t in s0.tabs ==>
      Exec(s0, trace).tabs[t].explainPlan ==
        if PlanOf(trace, t).Some? then Some(PlanOf(trace, t).value.1) else s0.tabs[t].explainPlan
  {
    if trace != [] {
      PlanIsItsOwners(s0, Front(trace), t);
      Reachable(s0, Front(trace));
      StepPlan(Exec(s0, Front(trace)), LedgerOf(Front(trace), t), Last(trace), t);
    }
  }

  // ---------------------------------------------------------------------------
  // When plan and rows agree

  ghost predicate OwnsPlan(trace: seq<Event>, t: TabId, r: Run) {
    PlanOf(trace, t).Some? && PlanOf(trace, t).value.0 == r
  }

  ghost predicate PlansInv(s: State, trace: seq<Event>, t: TabId) {
    && (forall r :: OwnsPlan(trace, t, r) ==> OwnPlanLanded(trace, t, r))
    && (forall r :: OwnPlanLanded(trace, t, r) ==> r in s.started && r !in s.open)
    && (forall r :: LedgerOf(trace, t).shown == Some(r) ==> (OwnsPlan(trace, t, r) <==> OwnPlanLanded(trace, t, r)))
  }

  /** A run that has been answered stays started and is never awaited again. */
  lemma StepAnswered(s: State, e: Event, r: Run)
    requires Known(s) && Enabled(s, e) && r in s.started && r !in s.open
    ensures r in Step(s, e).started && r !in Step(s, e).open
  {
    StepStarted(s, e);
  }

  lemma LandingIsAnswered(s: State, e: Event, latest: Option<Run>)
    requires Known(s) && Enabled(s, e) && BringsPlan(e, latest)
    ensures e.run in Step(s, e).started && e.run !in Step(s, e).open
  {
    StepStarted(s, e);
  }

  lemma {:induction false} PlansReachable(s0: State, trace: seq<Event>, t: TabId)
    requires Init(s0) && Valid(s0, trace)
    ensures PlansInv(Exec(s0, trace), trace, t)
  {
    if trace != [] {
      var was, e, s := Front(trace), Last(trace), Exec(s0, Front(trace));
      PlansReachable(s0, was, t);
      Reachable(s0, was);
      assert TabInv(s, LedgerOf(was, t), t);
      forall r
        ensures OwnPlanLanded(trace, t, r) <==>
          OwnPlanLanded(was, t, r) || (BringsPlan(e, Latest(was, t)) && e.run == r)
      {
        LandedSplits(trace, t, r);
      }
      forall r | OwnPlanLanded(trace, t, r)
        ensures r in Exec(s0, trace).started && r !in Exec(s0, trace).open
      {
        if OwnPlanLanded(was, t, r) {
          StepAnswered(s, e, r);
        } else {
          LandingIsAnswered(s, e, Latest(was, t));
        }
      }
      ShownSplits(s, LedgerOf(was, t), e, t);
    }
  }

  /** A reply that lands takes the rows over; nothing else does, and a plan lands on its own run's rows. */
  lemma ShownSplits(s: State, l: Ledger, e: Event, t: TabId)
    requires Known(s) && Enabled(s, e) && TabInv(s, l, t)
    ensures Note(l, t, e).shown == if e.Reply? && l.latest == Some(e.run) then Some(e.run) else l.shown
    ensures e.PlanLands? && BringsPlan(e, l.latest) ==> l.shown == Some(e.run)
    ensures e.Reply? ==> e.run in s.open
  {
  }

  /**
   A tab that shows the rows of run `r` shows `r`'s plan if and only if `r`'s own plan has
   landed; until then the plan beside the rows is another run's, or the one the tab began with.
   */
  lemma PlanMatchesRowsIff(s0: State, trace: seq<Event>, t: TabId, r: Run)
    requires Init(s0) && Valid(s0, trace) && LedgerOf(trace, t).shown == Some(r)
    ensures OwnsPlan(trace, t, r) <==> OwnPlanLanded(trace, t, r)
  {
    PlansReachable(s0, trace, t);
  }

  /** So the rows of a run that sends no EXPLAIN, such as a further page, never stand beside a plan of their own. */
  lemma {:induction false} NoPlanWithoutExplain(s0: State, trace: seq<Event>, t: TabId, r: Run)
    requires Init(s0) && Valid(s0, trace) && !r.wantsPlan && !r.isExplain
    ensures !OwnPlanLanded(trace, t, r) && r !in Exec(s0, trace).planning
  {
    if trace != [] {
      NoPlanWithoutExplain(s0, Front(trace), t, r);
      LandedSplits(trace, t, r);
      StepPlanning(Exec(s0, Front(trace)), Last(trace), r);
    }
  }

  lemma StepPlanning(s: State, e: Event, r: Run)
    requires r !in s.planning && !r.wantsPlan
    ensures r !in Step(s, e).planning
  {
  }
}
