/**
 The run protocol of `useQueryExecution` as a state machine.

 Every call of `executeQuery` is an asynchronous run whose closure captures the tab it
 writes to, its id and its options. Runs of every tab interleave freely: code between two
 awaits is one step. A run asks `lastRun` whether it still owns its tab before it writes,
 and `runs` holds what Cancel would stop.
 */
module QueryRuns {
  import opened Options

  type TabId = string
  type RunId = string
  type Row = seq<string>

  /** The body of a successful reply. `rowCount` is the server's own count. */
  datatype Page = Page(rows: seq<Row>, rowCount: nat, hasMore: bool)

  datatype Plan = Plan(format: string, raw: string)

  /** What the hook reads and writes of a tab. An absent offset is 0: both are falsy. */
  datatype Tab = Tab(
    result: Option<Page>,
    allRows: Option<seq<Row>>,
    currentOffset: nat,
    explainPlan: Option<Plan>,
    approval: Option<string>,
    isExecuting: bool,
    isLoadingMore: bool)

  /** What one call of `executeQuery` captures: its closure. */
  datatype Run = Run(
    tab: TabId,
    id: RunId,
    isExplain: bool,
    offset: nat,
    sandbox: bool,   // a playground run, rolled back after its reply
    wantsPlan: bool) // a background EXPLAIN was sent beside it
  {
    predicate IsLoadMore() { offset > 0 }
  }

  /** The updates handed to `commitToTab`. */
  datatype Write =
    | ClearFlags
    | AwaitApproval(approval: string)
    | ShowReply(page: Page, plan: Plan)
    | ShowPlan(plan: Plan)

  datatype State = State(
    tabs: map<TabId, Tab>,
    runs: map<TabId, Run>,       // runsRef: the controller and id Cancel would use
    lastRun: map<TabId, RunId>,  // lastRunRef: which run owns the tab
    aborted: set<Run>,           // controllers that were aborted
    started: set<Run>,
    open: set<Run>,              // awaiting the main reply
    settling: set<Run>,          // replied, awaiting the playground rollback
    planning: set<Run>)          // replied, its background plan still on its way
  {
    function Unfinalised(): set<Run> { open + settling }
  }

  datatype Event =
    | Start(run: Run)
    | Refuse(tab: TabId)                            // an explain nothing can explain
    | Reply(run: Run, page: Page, plan: Plan)
    | Decline(run: Run, approval: Option<string>)   // cancelled on the server, or approval required
    | Fail(run: Run)
    | Finish(run: Run)                              // the rollback answered
    | PlanLands(run: Run, plan: Plan)
    | Cancel(tab: TabId)
    | Unmount

  // ---------------------------------------------------------------------------
  // Steps

  /** One tab after one update. */
  function Apply(w: Write, r: Run, t: Tab): Tab {
    match w
    case ClearFlags => t.(isExecuting := false, isLoadingMore := false)
    case AwaitApproval(a) =>
      t.(isExecuting := false, isLoadingMore := false, result := None, approval := Some(a))
    case ShowPlan(p) => t.(explainPlan := Some(p))
    case ShowReply(page, plan) =>
      if r.IsLoadMore() && t.result.Some? then
        var existing := if t.allRows.Some? then t.allRows.value else t.result.value.rows;
        var all := existing + page.rows;
        t.(result := Some(page.(rows := all, rowCount := |all|)),
           allRows := Some(all),
           currentOffset := r.offset + |page.rows|,
           isExecuting := false,
           isLoadingMore := false)
      else
        Tab(if r.isExplain then None else Some(page),
            if r.isExplain then t.allRows else Some(page.rows),
            if r.isExplain then t.currentOffset else |page.rows|,
            if r.isExplain then Some(plan) else t.explainPlan,
            if r.isExplain then t.approval else None,
            false, false)
  }

  predicate Superseded(s: State, r: Run) {
    Get(s.lastRun, r.tab) != Some(r.id)
  }

  /** `commitToTab`: only while the run still owns its tab. */
  function Commit(s: State, r: Run, w: Write): State {
    if Superseded(s, r) || r.tab !in s.tabs then s
    else s.(tabs := s.tabs[r.tab := Apply(w, r, s.tabs[r.tab])])
  }

  /** The `finally` block, after which nothing of the run but its plan is left. */
  function Finalise(s: State, r: Run): State {
    s.(runs := if Superseded(s, r) then s.runs else s.runs - {r.tab},
       open := s.open - {r},
       settling := s.settling - {r})
  }

  function SetFlags(s: State, t: TabId, executing: bool, loadingMore: bool): State {
    if t !in s.tabs then s
    else s.(tabs := s.tabs[t := s.tabs[t].(isExecuting := executing, isLoadingMore := loadingMore)])
  }

  function Abort(s: State, t: TabId): State {
    if t in s.runs then s.(aborted := s.aborted + {s.runs[t]}) else s
  }

  /** The new run takes the tab's slot and its results over. */
  function Register(s: State, r: Run): State {
    s.(runs := s.runs[r.tab := r],
       lastRun := s.lastRun[r.tab := r.id],
       started := s.started + {r},
       open := s.open + {r})
  }

  function StartRun(s: State, r: Run): State {
    Register(Abort(SetFlags(s, r.tab, !r.IsLoadMore(), r.IsLoadMore()), r.tab), r)
  }

  function ReplyRun(s: State, r: Run, page: Page, plan: Plan): State {
    var s1 := if r.wantsPlan then s.(planning := s.planning + {r}) else s;
    var s2 := Commit(s1, r, ShowReply(page, plan));
    if r.sandbox then s2.(open := s2.open - {r}, settling := s2.settling + {r}) else Finalise(s2, r)
  }

  function Step(s: State, e: Event): State {
    match e
    case Start(r) => StartRun(s, r)
    case Refuse(t) => SetFlags(s, t, false, false)
    case Reply(r, page, plan) => ReplyRun(s, r, page, plan)
    case Decline(r, a) =>
      Finalise(Commit(s, r, if a.Some? then AwaitApproval(a.value) else ClearFlags), r)
    case Fail(r) => Finalise(Commit(s, r, ClearFlags), r)
    case Finish(r) => Finalise(s, r)
    case PlanLands(r, plan) => Commit(s, r, ShowPlan(plan)).(planning := s.planning - {r})
    case Cancel(t) => Abort(s, t)
    case Unmount =>
      s.(aborted := s.aborted + s.runs.Values, runs := map[], lastRun := map[])
  }

  // ---------------------------------------------------------------------------
  // Which steps can happen

  /** `currentOffset || result.rows.length` */
  function NextOffset(t: Tab): nat
    requires t.result.Some?
  {
    if t.currentOffset != 0 then t.currentOffset else |t.result.value.rows|
  }

  /** The guard of `handleLoadMore`, the only caller that names an offset. */
  predicate CanLoadMore(s: State, t: TabId) {
    t in s.tabs && s.tabs[t].result.Some? && s.tabs[t].result.value.hasMore
  }

  /** An explain or a further page has no sandbox and no background plan. */
  predicate WellFormed(r: Run) {
    && (r.isExplain || r.IsLoadMore() ==> !r.sandbox && !r.wantsPlan)
    && (r.IsLoadMore() ==> !r.isExplain)
  }

  predicate Fresh(s: State, id: RunId) {
    forall r <- s.started :: r.id != id
  }

  predicate Enabled(s: State, e: Event) {
    match e
    case Start(r) =>
      && Fresh(s, r.id)
      && WellFormed(r)
      && (r.IsLoadMore() ==> CanLoadMore(s, r.tab) && r.offset == NextOffset(s.tabs[r.tab]))
    case Reply(r, _, _) => r in s.open
    case Decline(r, _) => r in s.open
    case Fail(r) => r in s.Unfinalised()
    case Finish(r) => r in s.settling
    case PlanLands(r, _) => r in s.planning
    case Refuse(_) => true
    case Cancel(_) => true
    case Unmount => true
  }

  predicate Blank(t: Tab) {
    t.result.None? && !t.isExecuting && !t.isLoadingMore
  }

  predicate Init(s: State) {
    && (forall t <- s.tabs :: Blank(s.tabs[t]))
    && s == State(s.tabs, map[], map[], {}, {}, {}, {}, {})
  }

  function Last(trace: seq<Event>): Event
    requires trace != []
  {
    trace[|trace| - 1]
  }

  function Front(trace: seq<Event>): (f: seq<Event>)
    requires trace != []
  {
    trace[..|trace| - 1]
  }

  function Exec(s0: State, trace: seq<Event>): State {
    if trace == [] then s0 else Step(Exec(s0, Front(trace)), Last(trace))
  }

  /** `trace` is an interleaving the hook can produce from `s0`. */
  ghost predicate Valid(s0: State, trace: seq<Event>) {
    trace == [] || (Valid(s0, Front(trace)) && Enabled(Exec(s0, Front(trace)), Last(trace)))
  }

  // ---------------------------------------------------------------------------
  // What a reader of the trace alone would write down, without the two maps

  function TabOf(e: Event): Option<TabId> {
    match e
    case Refuse(t) => Some(t)
    case Cancel(t) => Some(t)
    case Unmount => None
    case _ => Some(e.run.tab)
  }

  /** One tab's ledger. */
  datatype Ledger = Ledger(
    latest: Option<Run>,   // the last run started here since the hook was last unmounted
    awaited: Option<Run>,  // the run whose wait the spinner is showing
    pages: seq<(nat, seq<Row>)>, // the pages on screen, each with the offset it was asked for at
    shown: Option<Run>)    // the run whose reply the tab shows

  const BLANK := Ledger(None, None, [], None)

  /** The ledger of tab `t` after one more event. Only the latest run's replies count. */
  function Note(l: Ledger, t: TabId, e: Event): Ledger {
    match e
    case Start(r) => if r.tab == t then l.(latest := Some(r), awaited := Some(r)) else l
    case Unmount => l.(latest := None)
    case Refuse(t') => if t' == t then l.(awaited := None) else l
    case Cancel(_) => l
    case Finish(_) => l
    case PlanLands(_, _) => l
    case Fail(r) => if l.latest == Some(r) then l.(awaited := None) else l
    case Decline(r, a) =>
      if l.latest != Some(r) then l
      else l.(awaited := None, pages := if a.Some? then [] else l.pages)
    case Reply(r, page, _) =>
      if l.latest != Some(r) then l
      else l.(awaited := None, shown := Some(r),
              pages := if r.IsLoadMore() then l.pages + [(r.offset, page.rows)]
                       else if r.isExplain then [] else [(0, page.rows)])
  }

  function LedgerOf(trace: seq<Event>, t: TabId): Ledger {
    if trace == [] then BLANK else Note(LedgerOf(Front(trace), t), t, Last(trace))
  }

  function Latest(trace: seq<Event>, t: TabId): Option<Run> {
    LedgerOf(trace, t).latest
  }

  function Concat(pages: seq<(nat, seq<Row>)>): seq<Row> {
    if pages == [] then [] else Concat(pages[..|pages| - 1]) + pages[|pages| - 1].1
  }

  /** Each page was asked for at exactly the count the pages before it add up to. */
  ghost predicate Contiguous(pages: seq<(nat, seq<Row>)>) {
    forall i | 0 <= i < |pages| :: pages[i].0 == |Concat(pages[..i])|
  }

  // ---------------------------------------------------------------------------
  // The invariant of every reachable state

  ghost predicate IdsUnique(s: State) {
    forall r, q | r in s.started && q in s.started && r.id == q.id :: r == q
  }

  ghost predicate Known(s: State) {
    && IdsUnique(s)
    && s.open <= s.started && s.settling <= s.started && s.planning <= s.started
    && s.open !! s.settling
    && s.open !! s.planning
    && (forall r <- s.started :: WellFormed(r))
  }

  /** `lastRun` answers exactly what the trace says. */
  ghost predicate OwnerAt(s: State, l: Ledger, t: TabId) {
    match l.latest
    case None => t !in s.lastRun
    case Some(r) => r in s.started && r.tab == t && Get(s.lastRun, t) == Some(r.id)
  }

  /** `runs` holds an entry for the tab exactly while its latest run is not finalised. */
  ghost predicate SlotAt(s: State, l: Ledger, t: TabId) {
    && Get(s.runs, t) == (if l.latest.Some? && l.latest.value in s.Unfinalised() then l.latest else None)
    && (forall r <- s.Unfinalised() :: r.tab == t && l.latest != Some(r) ==> r in s.aborted)
  }

  ghost predicate SpinnerAt(s: State, l: Ledger, t: TabId) {
    && (t in s.tabs ==>
          && (s.tabs[t].isExecuting <==> l.awaited.Some? && !l.awaited.value.IsLoadMore())
          && (s.tabs[t].isLoadingMore <==> l.awaited.Some? && l.awaited.value.IsLoadMore()))
    && (l.awaited.Some? && l.latest.Some? ==> l.awaited == l.latest && l.latest.value in s.open)
  }

  ghost predicate TabPaged(tab: Tab, pages: seq<(nat, seq<Row>)>) {
    && (tab.result.Some? <==> pages != [])
    && (tab.result.Some? ==>
          && tab.result.value.rows == Concat(pages)
          && tab.allRows == Some(Concat(pages))
          && tab.currentOffset == |Concat(pages)|)
  }

  ghost predicate PagingAt(s: State, l: Ledger, t: TabId) {
    && Contiguous(l.pages)
    && (t in s.tabs ==> TabPaged(s.tabs[t], l.pages))
    && (l.latest.Some? && l.latest.value in s.open && l.latest.value.IsLoadMore() ==>
          && t in s.tabs
          && s.tabs[t].result.Some?
          && l.latest.value.offset == |s.tabs[t].result.value.rows|)
  }

  ghost predicate PlanAt(s: State, l: Ledger) {
    l.latest.Some? && l.latest.value in s.planning + s.settling ==> l.shown == l.latest
  }

  ghost predicate TabInv(s: State, l: Ledger, t: TabId) {
    OwnerAt(s, l, t) && SlotAt(s, l, t) && SpinnerAt(s, l, t) && PagingAt(s, l, t) && PlanAt(s, l)
  }

  ghost predicate Inv(s: State, trace: seq<Event>) {
    Known(s) && forall t :: TabInv(s, LedgerOf(trace, t), t)
  }
}
