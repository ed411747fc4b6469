/**
 `useMonitoringData` as an object: its references, its state and its ring buffer.
 */
module MonitoringHook {
  import opened Options
  import opened TimeSeries
  import opened Monitoring

  class MonitoringData {
    var connection: Option<Conn>
    var selection: Selection
    var connectionRef: Option<Conn>
    var selectionRef: nat
    var isMounted: bool
    var controller: Option<nat>
    var loading: bool
    var error: Option<string>
    var data: Option<Point>
    var historyState: Option<History>
    const historyRef: TimeSeriesBuffer<Point>
    var historyOwnerRef: Option<nat>
    var next: nat
    ghost var pending: set<Request>
    ghost var aborted: set<nat>

    ghost predicate Valid()
      reads this, historyRef, historyRef.buffer
    {
      historyRef.Valid() && historyRef.maxSize == CAPACITY
    }

    ghost function Now(): State
      reads this, historyRef
    {
      State(connection, selection, connectionRef, selectionRef, isMounted, next, pending, aborted, controller,
            loading, error, data, historyOwnerRef, historyRef.pushed, historyState)
    }

    constructor (first: Option<Conn>)
      ensures this.Valid() && Now() == Start(first) && fresh(historyRef) && fresh(historyRef.buffer)
    {
      connection, selection := first, Selection(IdOf(first), 0);
      connectionRef, selectionRef, isMounted := None, 0, true;
      controller, loading, error, data := None, false, None, None;
      historyState, historyOwnerRef := None, None;
      historyRef := new TimeSeriesBuffer<Point>(CAPACITY);
      next, pending, aborted := 0, {}, {};
    }

    method OnRender(now: Option<Conn>)
      requires Valid()
      modifies this
      ensures Valid() && Now() == Step(old(Now()), Render(now))
    {
      connection := now;
      if selection.id != IdOf(now) {
        selection := Selection(IdOf(now), selection.seqNo + 1);
      }
    }

    method AbortCurrent()
      requires Valid()
      modifies this
      ensures Valid() && Now() == Abort(old(Now()))
    {
      if controller.Some? {
        aborted := aborted + {controller.value};
      }
    }

    /** `fetchData` up to its await. */
    method FetchData()
      requires Valid()
      modifies this
      ensures Valid() && Now() == Step(old(Now()), Fetch)
    {
      if connectionRef.None? { return; }
      var selectionSeq := selectionRef;
      AbortCurrent();
      controller := Some(next);
      pending := pending + {Request(next, connectionRef.value, selectionSeq)};
      next := next + 1;
      loading := true;
      error := None;
    }

    method OnEffects()
      requires Valid()
      modifies this
      ensures Valid() && Now() == Step(old(Now()), Effects)
    {
      var changed, hadConnection := connection != connectionRef, connectionRef.Some?;
      selectionRef := selection.seqNo;
      connectionRef := connection;
      if changed {
        if hadConnection {
          AbortCurrent();
        }
        FetchData();
      }
    }

    /** The tail of a successful `fetchData`: the buffer goes to the selection that asked. */
    method KeepPoint(p: Point)
      requires Valid()
      modifies this, historyRef, historyRef.buffer
      ensures Valid() && Now() == Keep(old(Now()), p)
    {
      if historyOwnerRef != Some(p.request.selection) {
        historyRef.Clear();
        historyOwnerRef := Some(p.request.selection);
      }
      historyRef.Push(p);
      var points := historyRef.GetAll();
      historyState := Some(History(p.request.selection, points));
    }

    /** `fetchData` once its reply has been read. */
    method OnReply(request: Request, sample: string)
      requires Valid()
      modifies this, historyRef, historyRef.buffer
      ensures Valid() && Now() == Step(old(Now()), Reply(request, sample))
    {
      pending := pending - {request};
      if isMounted {
        data := Some(Point(request, sample));
        error := None;
        loading := false;
        KeepPoint(Point(request, sample));
      }
    }

    /** Its catch and finally; `message` is None for an abort. */
    method OnError(request: Request, message: Option<string>)
      requires Valid()
      modifies this
      ensures Valid()
      ensures Now() == Step(old(Now()), if message.Some? then Fail(request, message.value) else Cancelled(request))
    {
      pending := pending - {request};
      if message.Some? && isMounted {
        error := message;
      }
      if isMounted {
        loading := false;
      }
    }

    method OnUnmount()
      requires Valid()
      modifies this
      ensures Valid() && Now() == Step(old(Now()), Unmount)
    {
      isMounted := false;
      if connectionRef.Some? {
        AbortCurrent();
      }
    }
  }
}
