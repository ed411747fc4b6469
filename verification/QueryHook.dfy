/**
 `useQueryExecution` itself: the maps it sets and deletes, and the code between two awaits
 of each of its callbacks. Every method is proved to be one step of the protocol.
 */
module QueryHook {
  import opened Options
  import opened QueryRuns

  class QueryExecution {
    var tabs: map<TabId, Tab>
    var runs: map<TabId, Run>
    var lastRun: map<TabId, RunId>
    /** The runs whose `AbortController` was aborted. */
    var aborted: set<Run>
    /** Which closures exist, and what each of them is awaiting. */
    ghost var started: set<Run>
    ghost var open: set<Run>
    ghost var settling: set<Run>
    ghost var planning: set<Run>

    ghost function Now(): State
      reads this
    {
      State(tabs, runs, lastRun, aborted, started, open, settling, planning)
    }

    constructor (tabs: map<TabId, Tab>)
      requires forall t <- tabs :: Blank(tabs[t])
      ensures Init(Now()) && this.tabs == tabs
    {
      this.tabs := tabs;
      runs, lastRun, aborted := map[], map[], {};
      started, open, settling, planning := {}, {}, {}, {};
    }

    method SetFlagsOf(t: TabId, executing: bool, loadingMore: bool)
      modifies this`tabs
      ensures Now() == SetFlags(old(Now()), t, executing, loadingMore)
    {
      if t in tabs {
        tabs := tabs[t := tabs[t].(isExecuting := executing, isLoadingMore := loadingMore)];
      }
    }

    /** `isSuperseded` */
    method IsSuperseded(r: Run) returns (b: bool)
      ensures b == Superseded(Now(), r)
    {
      b := !(r.tab in lastRun && lastRun[r.tab] == r.id);
    }

    method CommitToTab(r: Run, w: Write)
      modifies this`tabs
      ensures Now() == Commit(old(Now()), r, w)
    {
      var superseded := IsSuperseded(r);
      if superseded { return; }
      if r.tab in tabs {
        tabs := tabs[r.tab := Apply(w, r, tabs[r.tab])];
      }
    }

    /** The `finally` block of a run. */
    method Finally(r: Run)
      modifies this`runs, this`open, this`settling
      ensures Now() == Finalise(old(Now()), r)
    {
      var superseded := IsSuperseded(r);
      if !superseded {
        runs := runs - {r.tab};
      }
      open, settling := open - {r}, settling - {r};
    }

    /**
     `executeQuery` up to its first await. The content of the statement comes in as three
     answers about it: dangerous, accepted by the dialect's EXPLAIN, explainable beside a run.
     */
    method ExecuteQuery(t: TabId, id: RunId, isExplain: bool, offset: nat, connected: bool, skipSafety: bool,
                        dangerous: bool, explainAccepted: bool, explainable: bool,
                        playground: bool, transactionActive: bool)
      returns (run: Option<Run>)
      modifies this
      ensures
        var gated := !connected || (!skipSafety && !isExplain && offset == 0 && !playground && dangerous);
        var loadMore := offset > 0;
        if gated then run == None && Now() == old(Now())
        else if isExplain && !explainAccepted then run == None && Now() == Step(old(Now()), Refuse(t))
        else
          && run == Some(Run(t, id, isExplain, offset,
                             playground && !transactionActive && !isExplain && !loadMore,
                             explainable && !isExplain && !loadMore))
          && Now() == Step(old(Now()), Start(run.value))
    {
      run := None;
      if !connected { return; }
      if !skipSafety && !isExplain && offset == 0 && !playground && dangerous { return; }

      var isLoadMore := offset > 0;
      SetFlagsOf(t, !isLoadMore, isLoadMore);
      if isExplain && !explainAccepted {
        SetFlagsOf(t, false, false);
        return;
      }

      if t in runs {
        aborted := aborted + {runs[t]};
      }
      var r := Run(t, id, isExplain, offset,
                   playground && !transactionActive && !isExplain && !isLoadMore,
                   explainable && !isExplain && !isLoadMore);
      runs := runs[t := r];
      lastRun := lastRun[t := id];
      started, open := started + {r}, open + {r};
      run := Some(r);
    }

    /** `handleLoadMore`: asks for the page after the rows the tab holds. */
    method HandleLoadMore(t: TabId, id: RunId, connected: bool, dangerous: bool, explainable: bool,
                          playground: bool, transactionActive: bool)
      returns (run: Option<Run>)
      requires Fresh(Now(), id)
      modifies this
      ensures run.Some? <==>
                && connected && CanLoadMore(old(Now()), t)
                && !(NextOffset(old(Now()).tabs[t]) == 0 && !playground && dangerous)
      ensures run.None? ==> Now() == old(Now())
      ensures run.Some? ==>
                && run.value.offset == NextOffset(old(Now()).tabs[t])
                && Enabled(old(Now()), Start(run.value))
                && Now() == Step(old(Now()), Start(run.value))
    {
      run := None;
      if t !in tabs || tabs[t].result.None? || !tabs[t].result.value.hasMore { return; }
      var tab := tabs[t];
      var offset := if tab.currentOffset != 0 then tab.currentOffset else |tab.result.value.rows|;
      run := ExecuteQuery(t, id, false, offset, connected, false, dangerous, false, explainable,
                          playground, transactionActive);
    }

    /** The main reply of a run was a result. */
    method OnReply(r: Run, page: Page, plan: Plan)
      modifies this
      ensures Now() == Step(old(Now()), Reply(r, page, plan))
    {
      if r.wantsPlan {
        planning := planning + {r};
      }
      CommitToTab(r, ShowReply(page, plan));
      if r.sandbox {
        open, settling := open - {r}, settling + {r};
      } else {
        Finally(r);
      }
    }

    /** The server cancelled the statement, or turned it into a request for approval. */
    method OnDeclined(r: Run, approval: Option<string>)
      modifies this
      ensures Now() == Step(old(Now()), Decline(r, approval))
    {
      if approval.Some? {
        CommitToTab(r, AwaitApproval(approval.value));
      } else {
        CommitToTab(r, ClearFlags);
      }
      Finally(r);
    }

    /** The run threw. A user's own cancellation is announced unless the run was superseded. */
    method OnFailure(r: Run, abortError: bool) returns (announced: bool)
      modifies this
      ensures Now() == Step(old(Now()), Fail(r))
      ensures announced <==> !abortError || !Superseded(old(Now()), r)
    {
      var superseded := IsSuperseded(r);
      CommitToTab(r, ClearFlags);
      announced := !abortError || !superseded;
      Finally(r);
    }

    /** The playground rollback answered. */
    method OnSettled(r: Run)
      modifies this
      ensures Now() == Step(old(Now()), Finish(r))
    {
      Finally(r);
    }

    /** The background EXPLAIN of a run answered. */
    method OnPlan(r: Run, plan: Plan)
      modifies this
      ensures Now() == Step(old(Now()), PlanLands(r, plan))
    {
      CommitToTab(r, ShowPlan(plan));
      planning := planning - {r};
    }

    /** Aborts the tab's run; answers the id the server is asked to cancel. */
    method CancelQuery(t: TabId) returns (queryId: Option<RunId>)
      modifies this`aborted
      ensures Now() == Step(old(Now()), Cancel(t))
      ensures queryId == match Get(old(Now()).runs, t) case Some(r) => Some(r.id) case None => None
    {
      queryId := None;
      if t in runs {
        aborted := aborted + {runs[t]};
        queryId := Some(runs[t].id);
      }
    }

    /** The cleanup of the unmount effect. */
    method OnUnmount()
      modifies this
      ensures Now() == Step(old(Now()), Unmount)
    {
      var left := runs.Keys;
      ghost var before := aborted;
      while left != {}
        invariant left <= runs.Keys
        invariant aborted == before + set t | t in runs.Keys - left :: runs[t]
        invariant Now() == old(Now()).(aborted := aborted)
        decreases left
      {
        var t :| t in left;
        ghost var done := runs.Keys - left;
        left := left - {t};
        assert runs.Keys - left == done + {t};
        aborted := aborted + {runs[t]};
      }
      assert (set t | t in runs.Keys :: runs[t]) == runs.Values;
      assert runs.Keys - {} == runs.Keys;
      runs, lastRun := map[], map[];
    }
  }
}
