/** What a tab holds, told from the answers that reached it: every field, in every reachable state. */
module QueryResults {
  import opened Options
  import opened QueryRuns
  import opened QueryTheorems
  import opened QueryPlans

  // ---------------------------------------------------------------------------
  // The tab, read off the trace

  /** The last event of kind `p` whose run owned the tab when it happened. */
  function LastLanded(trace: seq<Event>, t: TabId, p: Event -> bool): Option<Event> {
    if trace == [] then None
    else if p(Last(trace)) && IsWrite(Last(trace)) && Latest(Front(trace), t) == Some(Last(trace).run)
    then Some(Last(trace))
    else LastLanded(Front(trace), t, p)
  }

  predicate IsRows(e: Event) {
    e.Reply? && !e.run.isExplain
  }

  predicate AsksApproval(e: Event) {
    e.Decline? && e.approval.Some?
  }

  /** What the last answer to replace the screen was: rows, an explain or a request for approval. */
  function Answer(trace: seq<Event>, t: TabId): Option<Event> {
    LastLanded(trace, t, (e: Event) => e.Reply? || AsksApproval(e))
  }

  /** The last landed rows or request for approval, whichever came later. */
  function Verdict(trace: seq<Event>, t: TabId): Option<Event> {
    LastLanded(trace, t, (e: Event) => IsRows(e) || AsksApproval(e))
  }

  /** All rows on screen right after the last landed rows; an explain or a request for approval hides them only. */
  function Held(trace: seq<Event>, t: TabId): Option<seq<Row>> {
    if trace == [] then None
    else if IsRows(Last(trace)) && Latest(Front(trace), t) == Some(Last(trace).run)
    then Some(Concat(LedgerOf(trace, t).pages))
    else Held(Front(trace), t)
  }

  /**
   A result is shown while the last answer was rows. It announces a further page as that
   answer did, and counts as the server did unless it was itself a further page.
   */
  function ResultTold(trace: seq<Event>, t: TabId): Option<Page> {
    var answer, rows := Answer(trace, t), Concat(LedgerOf(trace, t).pages);
    if answer.Some? && IsRows(answer.value)
    then Some(Page(rows,
                   if answer.value.run.IsLoadMore() then |rows| else answer.value.page.rowCount,
                   answer.value.page.hasMore))
    else None
  }

  /** The last request for approval that landed, until rows land. */
  function ApprovalTold(first: Option<string>, trace: seq<Event>, t: TabId): Option<string> {
    match Verdict(trace, t)
    case Some(Decline(_, approval)) => approval
    case Some(_) => None
    case None => first
  }

  function TabTold(first: Tab, trace: seq<Event>, t: TabId): Tab {
    var held, plan, awaited := Held(trace, t), PlanOf(trace, t), LedgerOf(trace, t).awaited;
    Tab(ResultTold(trace, t),
        if held.Some? then held else first.allRows,
        if held.Some? then |held.value| else first.currentOffset,
        if plan.Some? then Some(plan.value.1) else first.explainPlan,
        ApprovalTold(first.approval, trace, t),
        awaited.Some? && !awaited.value.IsLoadMore(),
        awaited.Some? && awaited.value.IsLoadMore())
  }

  // ---------------------------------------------------------------------------
  // One step

  /** The fields a reply, a decline or neither leaves behind, the paging invariant given. */
  ghost predicate FollowsAs(tab: Tab, tab': Tab, e: Event, lands: bool, pages': seq<(nat, seq<Row>)>) {
    if lands && IsRows(e) then
      && tab'.result == Some(Page(Concat(pages'),
                                  if e.run.IsLoadMore() then |Concat(pages')| else e.page.rowCount,
                                  e.page.hasMore))
      && tab'.allRows == Some(Concat(pages'))
      && tab'.currentOffset == |Concat(pages')|
      && tab'.approval == None
    else if lands && e.Reply? then
      tab'.result == None && (tab'.allRows, tab'.currentOffset, tab'.approval) == (tab.allRows, tab.currentOffset, tab.approval)
    else if lands && AsksApproval(e) then
      tab'.result == None && tab'.approval == e.approval && (tab'.allRows, tab'.currentOffset) == (tab.allRows, tab.currentOffset)
    else
      (tab'.result, tab'.allRows, tab'.currentOffset, tab'.approval)
      == (tab.result, tab.allRows, tab.currentOffset, tab.approval)
  }

  lemma ReplyFollows(r: Run, page: Page, plan: Plan, tab: Tab, pages: seq<(nat, seq<Row>)>, e: Event)
    requires e == Reply(r, page, plan)
    requires Contiguous(pages) && TabPaged(tab, pages)
    requires r.IsLoadMore() ==> !r.isExplain && tab.result.Some? && r.offset == |tab.result.value.rows|
    requires tab.result.Some? ==> tab.approval == None
    ensures
      var pages' := if r.IsLoadMore() then pages + [(r.offset, page.rows)]
                    else if r.isExplain then [] else [(0, page.rows)];
      FollowsAs(tab, Apply(ShowReply(page, plan), r, tab), e, true, pages')
  {
    ReplyPages(r, page, plan, tab, pages);
  }

  lemma OwnerFollows(s: State, l: Ledger, e: Event, t: TabId)
    requires Known(s) && Enabled(s, e) && TabInv(s, l, t) && t in s.tabs
    requires IsWrite(e) && l.latest == Some(e.run)
    requires s.tabs[t].result.Some? ==> s.tabs[t].approval == None
    ensures t in Step(s, e).tabs
    ensures FollowsAs(s.tabs[t], Step(s, e).tabs[t], e, true, Note(l, t, e).pages)
  {
    SupersededMeans(s, l, e.run);
    if e.Reply? {
      ReplyFollows(e.run, e.page, e.plan, s.tabs[t], l.pages, e);
    }
  }

  /** Starts and refusals set the flags; everything but a write of the owner leaves the rest. */
  lemma OthersStand(s: State, l: Ledger, e: Event, t: TabId)
    requires Known(s) && Enabled(s, e) && SlotsOwned(s) && TabInv(s, l, t) && t in s.tabs
    requires !(IsWrite(e) && l.latest == Some(e.run))
    ensures t in Step(s, e).tabs
    ensures FollowsAs(s.tabs[t], Step(s, e).tabs[t], e, false, [])
  {
    if IsWrite(e) {
      if e.run.tab == t {
        SupersededMeans(s, l, e.run);
        StepTabs(s, e);
      } else {
        StepOn(s, e, t);
        OnlyGet(s.tabs, Step(s, e).tabs, t);
      }
    } else if !e.Start? && !e.Refuse? {
      StepTabs(s, e);
    }
  }

  // ---------------------------------------------------------------------------
  // Every reachable state

  ghost predicate ToldAt(tab: Tab, first: Tab, trace: seq<Event>, t: TabId) {
    && tab == TabTold(first, trace, t)
    && (tab.result.Some? ==> tab.approval == None)
  }

  /** The telling moves by the same rule. */
  lemma ToldFollows(first: Tab, trace: seq<Event>, t: TabId)
    requires trace != []
    requires
      var e := Last(trace);
      || (IsWrite(e) && Latest(Front(trace), t) == Some(e.run) && (e.Reply? || AsksApproval(e)))
      || LedgerOf(trace, t).pages == LedgerOf(Front(trace), t).pages
    ensures
      var e := Last(trace);
      FollowsAs(TabTold(first, Front(trace), t), TabTold(first, trace, t), e,
                IsWrite(e) && Latest(Front(trace), t) == Some(e.run), LedgerOf(trace, t).pages)
  {
  }

  lemma StepTold(s0: State, trace: seq<Event>, t: TabId)
    requires Init(s0) && Valid(s0, trace) && trace != [] && t in s0.tabs
    requires t in Exec(s0, Front(trace)).tabs && ToldAt(Exec(s0, Front(trace)).tabs[t], s0.tabs[t], Front(trace), t)
    ensures t in Exec(s0, trace).tabs && ToldAt(Exec(s0, trace).tabs[t], s0.tabs[t], trace, t)
  {
    var was, e, s := Front(trace), Last(trace), Exec(s0, Front(trace));
    var l := LedgerOf(was, t);
    Reachable(s0, was);
    assert TabInv(s, l, t);
    if IsWrite(e) && l.latest == Some(e.run) {
      OwnerFollows(s, l, e, t);
    } else {
      OthersStand(s, l, e, t);
    }
    if !(IsWrite(e) && l.latest == Some(e.run) && (e.Reply? || AsksApproval(e))) {
      PagesStand(s, l, e, t);
    }
    ToldFollows(s0.tabs[t], trace, t);
    PlanIsItsOwners(s0, trace, t);
    SpinnerShowsTheOwner(s0, trace, t);
  }

  /** Only a landed reply or request for approval changes the pages. */
  lemma PagesStand(s: State, l: Ledger, e: Event, t: TabId)
    requires !(IsWrite(e) && l.latest == Some(e.run) && (e.Reply? || AsksApproval(e)))
    ensures Note(l, t, e).pages == l.pages
  {
  }

  /** In every reachable state each tab is exactly what the answers that landed on it tell. */
  lemma {:induction false} TabIsAsTold(s0: State, trace: seq<Event>, t: TabId)
    requires Init(s0) && Valid(s0, trace) && t in s0.tabs
    ensures t in Exec(s0, trace).tabs
    ensures Exec(s0, trace).tabs[t] == TabTold(s0.tabs[t], trace, t)
    ensures Exec(s0, trace).tabs[t].result.Some? ==> Exec(s0, trace).tabs[t].approval == None
  {
    if trace != [] {
      TabIsAsTold(s0, Front(trace), t);
      StepTold(s0, trace, t);
    }
  }

  /**
   More is asked for if and only if the last answer that landed was rows with a further page
   announced, and then from exactly the count on screen.
   */
  lemma MoreIsAskedIff(s0: State, trace: seq<Event>, t: TabId)
    requires Init(s0) && Valid(s0, trace) && t in s0.tabs
    ensures
      var s, answer := Exec(s0, trace), Answer(trace, t);
      && (CanLoadMore(s, t) <==>
            answer.Some? && answer.value.Reply? && !answer.value.run.isExplain && answer.value.page.hasMore)
      && (CanLoadMore(s, t) ==> NextOffset(s.tabs[t]) == |Concat(LedgerOf(trace, t).pages)|)
  {
    TabIsAsTold(s0, trace, t);
    PagingConserved(s0, trace, t);
  }
}
