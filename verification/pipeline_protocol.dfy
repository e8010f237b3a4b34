// The log replication protocol as a state machine.
//
// One step is one thing a goroutine, the store, the exporter or the log writer
// does between two points where another goroutine may run. Several runs of the
// same pipeline may coexist: nothing below relies on there being only one.
module PipelineProtocol {
  import opened Wrappers

  datatype Log = Log(id: nat, data: string)

  // `LastLogID`: None is Go's nil, and stands below every id.
  type Cursor = Option<nat>

  predicate Above(id: nat, cursor: Cursor) {
    cursor.None? || cursor.value < id
  }

  predicate Ascending(logs: seq<Log>) {
    forall i, j :: 0 <= i < j < |logs| ==> logs[i].id < logs[j].id
  }

  // How many logs the cursor has passed.
  function Covered(logs: seq<Log>, cursor: Cursor): (k: nat)
    ensures k <= |logs|
  {
    if logs == [] || Above(logs[0].id, cursor) then 0 else 1 + Covered(logs[1..], cursor)
  }

  // What `ListLogs` with `id > cursor`, ascending, has to page through.
  function After(logs: seq<Log>, cursor: Cursor): seq<Log> {
    logs[Covered(logs, cursor)..]
  }

  // The first `size` of them.
  function Page(logs: seq<Log>, cursor: Cursor, size: nat): seq<Log>
    requires Covered(logs, cursor) + size <= |logs|
  {
    logs[Covered(logs, cursor)..Covered(logs, cursor) + size]
  }

  // A first page of `ListLogs`, whatever the page size.
  predicate IsPage(logs: seq<Log>, cursor: Cursor, batch: seq<Log>) {
    && 0 < |batch| <= |logs| - Covered(logs, cursor)
    && batch == Page(logs, cursor, |batch|)
  }

  function Last(batch: seq<Log>): nat
    requires batch != []
  {
    batch[|batch| - 1].id
  }

  // Where `Run` is waiting.
  datatype Phase =
    | Polling                    // the outer select, or the wait after a failed fetch
    | Pushing(batch: seq<Log>)   // the select on errChan and stopChannel
    | RetryWait(batch: seq<Log>) // the wait after a failed Accept
    | Publishing(id: nat)        // blocked sending the new cursor to ingestedLogs
    | Stopped                    // stop(ch) has been executed

  // The goroutine that calls Accept. It outlives a stop of the handler.
  datatype Call = Idle | InFlight(batch: seq<Log>) | Returned(batch: seq<Log>, ok: bool)

  // One execution of `Run` with the goroutine that stores its cursor. `delivered`
  // is history: the logs of this run's Accept calls that returned nil.
  datatype Run = Run(
    start: Cursor, cursor: Cursor, phase: Phase, call: Call,
    storing: Option<nat>, delivered: seq<Log>)

  // `exported` is history: every log of every Accept call that returned nil. `late`
  // holds the writes a crashed process had sent to the database, which may still commit.
  // `read` is the pipeline row last read from storage to start a run from.
  datatype World = World(
    logs: seq<Log>, stored: Cursor, read: Option<Cursor>, runs: seq<Run>, exported: seq<Log>, late: seq<nat>)

  datatype Step =
    | Append(log: Log)
    | ReadPipeline
    | StartRun
    | FetchNothing(i: nat)        // a failed fetch, or an empty page
    | Fetch(i: nat, size: nat)
    | AcceptReturns(i: nat, ok: bool)
    | Receive(i: nat)             // the handler reads errChan
    | Retry(i: nat)
    | Publish(i: nat)
    | CancelPublish(i: nat)       // ctx.Done() while publishing
    | Stop(i: nat)
    | StoreReturns(i: nat, ok: bool)
    | Reset                       // UpdatePipeline(last_log_id: nil), which returns the row
    | Crash
    | LateStore(i: nat, ok: bool) // a write of a crashed process commits, or is lost

  function Initial(): World {
    World([], None, None, [], [], [])
  }

  // The cursors that the runs are storing.
  function Stores(runs: seq<Run>): seq<nat> {
    if runs == [] then []
    else (if runs[0].storing.Some? then [runs[0].storing.value] else []) + Stores(runs[1..])
  }

  predicate Enabled(w: World, s: Step) {
    match s
    case Append(log) => w.logs == [] || Last(w.logs) < log.id
    case ReadPipeline => true
    case StartRun => w.read.Some?
    case FetchNothing(i) => i < |w.runs| && w.runs[i].phase.Polling?
    case Fetch(i, size) =>
      i < |w.runs| && w.runs[i].phase.Polling? && 0 < size <= |w.logs| - Covered(w.logs, w.runs[i].cursor)
    case AcceptReturns(i, _) => i < |w.runs| && w.runs[i].call.InFlight?
    case Receive(i) => i < |w.runs| && w.runs[i].phase.Pushing? && w.runs[i].call.Returned?
                       && w.runs[i].call.batch != []
    case Retry(i) => i < |w.runs| && w.runs[i].phase.RetryWait?
    case Publish(i) => i < |w.runs| && w.runs[i].phase.Publishing? && w.runs[i].storing.None?
    case CancelPublish(i) => i < |w.runs| && w.runs[i].phase.Publishing?
    case Stop(i) => i < |w.runs| && (w.runs[i].phase.Polling? || w.runs[i].phase.Pushing? || w.runs[i].phase.RetryWait?)
    case StoreReturns(i, _) => i < |w.runs| && w.runs[i].storing.Some?
    case Reset => true
    case Crash => true
    case LateStore(i, _) => i < |w.late|
  }

  function ReceiveResult(r: Run): Run
    requires r.call.Returned? && r.call.batch != []
  {
    var batch := r.call.batch;
    if r.call.ok then
      r.(cursor := Some(Last(batch)), phase := Publishing(Last(batch)), call := Idle)
    else
      r.(phase := RetryWait(batch), call := Idle)
  }

  function Apply(w: World, s: Step): World
    requires Enabled(w, s)
  {
    match s
    case Append(log) => w.(logs := w.logs + [log])
    case ReadPipeline => w.(read := Some(w.stored))
    case StartRun =>
      w.(runs := w.runs + [Run(w.read.value, w.read.value, Polling, Idle, None, [])])
    case FetchNothing(i) => w
    case Fetch(i, size) =>
      var batch := Page(w.logs, w.runs[i].cursor, size);
      w.(runs := w.runs[i := w.runs[i].(phase := Pushing(batch), call := InFlight(batch))])
    case AcceptReturns(i, ok) =>
      var r := w.runs[i];
      var batch := r.call.batch;
      if ok then
        w.(runs := w.runs[i := r.(call := Returned(batch, true), delivered := r.delivered + batch)],
           exported := w.exported + batch)
      else
        w.(runs := w.runs[i := r.(call := Returned(batch, false))])
    case Receive(i) => w.(runs := w.runs[i := ReceiveResult(w.runs[i])])
    case Retry(i) =>
      var batch := w.runs[i].phase.batch;
      w.(runs := w.runs[i := w.runs[i].(phase := Pushing(batch), call := InFlight(batch))])
    case Publish(i) =>
      w.(runs := w.runs[i := w.runs[i].(phase := Polling, storing := Some(w.runs[i].phase.id))])
    case CancelPublish(i) => w.(runs := w.runs[i := w.runs[i].(phase := Stopped)])
    case Stop(i) => w.(runs := w.runs[i := w.runs[i].(phase := Stopped)])
    case StoreReturns(i, ok) =>
      var r := w.runs[i];
      w.(runs := w.runs[i := r.(storing := None)], stored := if ok then Some(r.storing.value) else w.stored)
    case Reset => w.(stored := None, read := Some(None))
    case Crash => w.(runs := [], read := None, late := w.late + Stores(w.runs))
    case LateStore(i, ok) =>
      w.(late := w.late[..i] + w.late[i + 1..], stored := if ok then Some(w.late[i]) else w.stored)
  }

  // Executions.

  predicate Executable(w: World, steps: seq<Step>)
    decreases |steps|
  {
    steps == [] || (Enabled(w, steps[0]) && Executable(Apply(w, steps[0]), steps[1..]))
  }

  function Execute(w: World, steps: seq<Step>): World
    requires Executable(w, steps)
    decreases |steps|
  {
    if steps == [] then w else Execute(Apply(w, steps[0]), steps[1..])
  }

  // The invariant.

  // What one run has delivered: exactly the logs between its start and its
  // cursor, followed by the page in hand when its Accept has returned nil and the
  // handler has not taken note of it.
  ghost predicate RunConsistent(logs: seq<Log>, r: Run) {
    var from, to := Covered(logs, r.start), Covered(logs, r.cursor);
    && from <= to
    && (r.phase.Polling? || r.phase.RetryWait? || r.phase.Publishing? ==> r.call.Idle?)
    && (r.phase.Pushing? ==> !r.call.Idle? && r.call.batch == r.phase.batch)
    && (r.phase.RetryWait? ==> IsPage(logs, r.cursor, r.phase.batch))
    && (!r.call.Idle? ==> IsPage(logs, r.cursor, r.call.batch))
    && (r.phase.Publishing? ==> r.cursor == Some(r.phase.id))
    && r.delivered == logs[from..to] + PageInHand(r)
    && Known(logs, r.start) && Known(logs, r.cursor)
    && (r.storing.Some? ==> Known(logs, Some(r.storing.value)))
  }

  function PageInHand(r: Run): seq<Log> {
    if r.call.Returned? && r.call.ok then r.call.batch else []
  }

  // The cursor is the id of a log.
  ghost predicate Known(logs: seq<Log>, cursor: Cursor) {
    cursor.Some? ==> exists log :: log in logs && log.id == cursor.value
  }

  // Every log the cursor has passed was exported since position `base` of the history.
  ghost predicate Passed(w: World, base: nat, cursor: Cursor)
    requires base <= |w.exported|
  {
    && Known(w.logs, cursor)
    && forall log :: log in w.logs && !Above(log.id, cursor) ==> log in w.exported[base..]
  }

  ghost predicate RunPassed(w: World, base: nat, r: Run)
    requires base <= |w.exported|
  {
    && (!r.phase.Stopped? ==>
          && Passed(w, base, r.cursor)
          && (forall log :: log in PageInHand(r) ==> log in w.exported[base..]))
    && (r.storing.Some? ==> Passed(w, base, Some(r.storing.value)))
  }

  ghost predicate Inv(w: World, base: nat) {
    && base <= |w.exported|
    && Ascending(w.logs)
    && Passed(w, base, w.stored)
    && (w.read.Some? ==> Passed(w, base, w.read.value))
    && (forall r :: r in w.runs ==> RunConsistent(w.logs, r))
    && (forall r :: r in w.runs ==> RunPassed(w, base, r))
    && (forall id :: id in w.late ==> Passed(w, base, Some(id)))
  }
}
