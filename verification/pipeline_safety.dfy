// At-least-once delivery, and what one run delivers, over every interleaving.
module PipelineSafety {
  import opened Wrappers
  import opened PipelineProtocol

  // Covered splits an ascending list at the cursor.

  lemma {:induction false} CoveredSplits(logs: seq<Log>, c: Cursor)
    requires Ascending(logs)
    ensures forall i :: 0 <= i < |logs| ==> (i < Covered(logs, c) <==> !Above(logs[i].id, c))
  {
    if logs != [] && !Above(logs[0].id, c) {
      CoveredSplits(logs[1..], c);
      forall i | 0 < i < |logs|
        ensures i < Covered(logs, c) <==> !Above(logs[i].id, c)
      {
        assert logs[i] == logs[1..][i - 1];
      }
    }
  }

  lemma {:induction false} CoveredIs(logs: seq<Log>, c: Cursor, k: nat)
    requires Ascending(logs) && k <= |logs|
    requires forall i :: 0 <= i < |logs| ==> (i < k <==> !Above(logs[i].id, c))
    ensures Covered(logs, c) == k
  {
    CoveredSplits(logs, c);
    var n := Covered(logs, c);
    assert n < |logs| ==> (n < k <==> !Above(logs[n].id, c));
    assert k < |logs| ==> (k < n <==> !Above(logs[k].id, c));
  }

  lemma {:induction false} AppendKeepsAscending(logs: seq<Log>, log: Log)
    requires Ascending(logs) && (logs == [] || Last(logs) < log.id)
    ensures Ascending(logs + [log])
  {
  }

  lemma {:induction false} AppendKeepsCovered(logs: seq<Log>, log: Log, c: Cursor)
    requires Ascending(logs) && (logs == [] || Last(logs) < log.id) && Known(logs, c)
    ensures Covered(logs + [log], c) == Covered(logs, c)
    ensures Known(logs + [log], c)
    ensures Above(log.id, c)
  {
    CoveredSplits(logs, c);
    if c.Some? {
      var known :| known in logs && known.id == c.value;
      assert known in logs + [log];
    }
    forall i | 0 <= i < |logs + [log]|
      ensures i < Covered(logs, c) <==> !Above((logs + [log])[i].id, c)
    {
    }
    CoveredIs(logs + [log], c, Covered(logs, c));
  }

  // Advancing the cursor to the end of a page passes exactly that page.

  lemma {:induction false} PageEnd(logs: seq<Log>, c: Cursor, batch: seq<Log>)
    requires Ascending(logs) && IsPage(logs, c, batch)
    ensures Covered(logs, Some(Last(batch))) == Covered(logs, c) + |batch|
    ensures Known(logs, Some(Last(batch)))
  {
    var end := Covered(logs, c) + |batch|;
    assert logs[end - 1] == batch[|batch| - 1];
    CoveredIs(logs, Some(Last(batch)), end);
  }

  lemma {:induction false} AdvancePassesPage(logs: seq<Log>, c: Cursor, batch: seq<Log>)
    requires Ascending(logs) && IsPage(logs, c, batch)
    ensures forall log :: log in logs && !Above(log.id, Some(Last(batch))) ==> log in batch || !Above(log.id, c)
  {
    var k := Covered(logs, c);
    CoveredSplits(logs, c);
    PageEnd(logs, c, batch);
    CoveredSplits(logs, Some(Last(batch)));
    forall log | log in logs && !Above(log.id, Some(Last(batch)))
      ensures log in batch || !Above(log.id, c)
    {
      var i :| 0 <= i < |logs| && logs[i] == log;
      if k <= i {
        assert batch[i - k] == log;
      }
    }
  }

  // Each kind of step keeps the invariant.

  lemma {:induction false} AppendKeepsPage(logs: seq<Log>, log: Log, c: Cursor, batch: seq<Log>)
    requires Ascending(logs) && (logs == [] || Last(logs) < log.id) && Known(logs, c)
    requires IsPage(logs, c, batch)
    ensures IsPage(logs + [log], c, batch)
  {
    AppendKeepsCovered(logs, log, c);
    assert Page(logs + [log], c, |batch|) == Page(logs, c, |batch|);
  }

  lemma {:induction false} AppendKeepsStretch(logs: seq<Log>, log: Log, from: nat, to: nat)
    requires from <= to <= |logs|
    ensures (logs + [log])[from..to] == logs[from..to]
  {
  }

  lemma {:induction false} AppendKeepsConsistent(logs: seq<Log>, log: Log, r: Run)
    requires Ascending(logs) && (logs == [] || Last(logs) < log.id)
    requires RunConsistent(logs, r)
    ensures RunConsistent(logs + [log], r)
  {
    AppendKeepsCovered(logs, log, r.start);
    AppendKeepsCovered(logs, log, r.cursor);
    AppendKeepsStretch(logs, log, Covered(logs, r.start), Covered(logs, r.cursor));
    if r.storing.Some? {
      AppendKeepsCovered(logs, log, Some(r.storing.value));
    }
    if r.phase.RetryWait? {
      AppendKeepsPage(logs, log, r.cursor, r.phase.batch);
    }
    if !r.call.Idle? {
      AppendKeepsPage(logs, log, r.cursor, r.call.batch);
    }
  }

  lemma {:induction false} AppendKeepsPassed(w: World, base: nat, log: Log, c: Cursor)
    requires Ascending(w.logs) && Enabled(w, Append(log)) && base <= |w.exported|
    requires Passed(w, base, c)
    ensures Passed(Apply(w, Append(log)), base, c)
  {
    AppendKeepsCovered(w.logs, log, c);
  }

  lemma {:induction false} AppendKeepsRun(w: World, base: nat, log: Log, r: Run)
    requires Inv(w, base) && Enabled(w, Append(log)) && r in w.runs
    ensures RunConsistent(w.logs + [log], r)
    ensures RunPassed(Apply(w, Append(log)), base, r)
  {
    AppendKeepsConsistent(w.logs, log, r);
    if !r.phase.Stopped? {
      AppendKeepsPassed(w, base, log, r.cursor);
    }
    if r.storing.Some? {
      AppendKeepsPassed(w, base, log, Some(r.storing.value));
    }
  }

  lemma {:induction false} AppendKeepsInv(w: World, base: nat, log: Log)
    requires Inv(w, base) && Enabled(w, Append(log))
    ensures Inv(Apply(w, Append(log)), base)
  {
    AppendKeepsAscending(w.logs, log);
    AppendKeepsPassed(w, base, log, w.stored);
    if w.read.Some? {
      AppendKeepsPassed(w, base, log, w.read.value);
    }
    forall r | r in w.runs
      ensures RunConsistent(w.logs + [log], r) && RunPassed(Apply(w, Append(log)), base, r)
    {
      AppendKeepsRun(w, base, log, r);
    }
    forall id | id in w.late
      ensures Passed(Apply(w, Append(log)), base, Some(id))
    {
      AppendKeepsPassed(w, base, log, Some(id));
    }
  }

  lemma {:induction false} ExportKeepsPassed(w: World, w': World, base: nat, c: Cursor)
    requires w'.logs == w.logs && w.exported <= w'.exported && base <= |w.exported|
    requires Passed(w, base, c)
    ensures Passed(w', base, c)
  {
    ExportsFromBase(w.exported, w'.exported, base);
  }

  lemma {:induction false} ExportsFromBase(before: seq<Log>, after: seq<Log>, base: nat)
    requires before <= after && base <= |before|
    ensures forall log :: log in before[base..] ==> log in after[base..]
  {
    assert before[base..] <= after[base..];
  }

  lemma {:induction false} ExportKeepsRunPassed(w: World, w': World, base: nat, r: Run)
    requires w'.logs == w.logs && w.exported <= w'.exported && base <= |w.exported|
    requires RunPassed(w, base, r)
    ensures RunPassed(w', base, r)
  {
    ExportsFromBase(w.exported, w'.exported, base);
    if !r.phase.Stopped? {
      ExportKeepsPassed(w, w', base, r.cursor);
    }
    if r.storing.Some? {
      ExportKeepsPassed(w, w', base, Some(r.storing.value));
    }
  }

  // A step of run i keeps the invariant if the new run satisfies its part, the
  // logs stay, and the export history only grows.
  lemma {:induction false} RunStepKeepsInv(w: World, base: nat, i: nat, r: Run, w': World)
    requires Inv(w, base) && i < |w.runs|
    requires w' == w.(runs := w.runs[i := r], exported := w'.exported, stored := w'.stored)
    requires w.exported <= w'.exported
    requires RunConsistent(w'.logs, r) && RunPassed(w', base, r)
    requires Passed(w', base, w'.stored)
    ensures Inv(w', base)
  {
    forall o | o in w'.runs
      ensures RunConsistent(w'.logs, o) && RunPassed(w', base, o)
    {
      if o != r {
        assert o in w.runs;
        ExportKeepsRunPassed(w, w', base, o);
      }
    }
    if w.read.Some? {
      ExportKeepsPassed(w, w', base, w.read.value);
    }
    forall id | id in w.late
      ensures Passed(w', base, Some(id))
    {
      ExportKeepsPassed(w, w', base, Some(id));
    }
  }

  lemma {:induction false} FetchKeepsInv(w: World, base: nat, i: nat, size: nat)
    requires Inv(w, base) && Enabled(w, Fetch(i, size))
    ensures Inv(Apply(w, Fetch(i, size)), base)
  {
    var w' := Apply(w, Fetch(i, size));
    var r := w.runs[i];
    assert RunConsistent(w.logs, r) && RunPassed(w, base, r);
    RunStepKeepsInv(w, base, i, w'.runs[i], w');
  }

  function AcceptResult(r: Run, ok: bool): Run
    requires r.call.InFlight?
  {
    var batch := r.call.batch;
    r.(call := Returned(batch, ok), delivered := if ok then r.delivered + batch else r.delivered)
  }

  lemma {:induction false} AppendNothing(logs: seq<Log>)
    ensures logs + [] == logs
  {
  }

  lemma {:induction false} AcceptKeepsConsistent(logs: seq<Log>, r: Run, ok: bool)
    requires RunConsistent(logs, r) && r.call.InFlight?
    ensures RunConsistent(logs, AcceptResult(r, ok))
  {
    var span := logs[Covered(logs, r.start)..Covered(logs, r.cursor)];
    AppendNothing(span);
    assert PageInHand(r) == [] && r.delivered == span;
    var next := AcceptResult(r, ok);
    assert next.delivered == span + PageInHand(next);
  }

  lemma {:induction false} AcceptKeepsRunPassed(w: World, w': World, base: nat, r: Run, ok: bool)
    requires base <= |w.exported| && RunPassed(w, base, r) && r.call.InFlight?
    requires w'.logs == w.logs && w'.exported == if ok then w.exported + r.call.batch else w.exported
    ensures RunPassed(w', base, AcceptResult(r, ok))
  {
    ExportKeepsRunPassed(w, w', base, r);
    if ok {
      assert w'.exported[base..] == w.exported[base..] + r.call.batch;
    }
  }

  lemma {:induction false} AcceptKeepsInv(w: World, base: nat, i: nat, ok: bool)
    requires Inv(w, base) && Enabled(w, AcceptReturns(i, ok))
    ensures Inv(Apply(w, AcceptReturns(i, ok)), base)
  {
    var w' := Apply(w, AcceptReturns(i, ok));
    var r := w.runs[i];
    assert r in w.runs && w'.runs[i] == AcceptResult(r, ok);
    AcceptKeepsConsistent(w.logs, r, ok);
    AcceptKeepsRunPassed(w, w', base, r, ok);
    ExportKeepsPassed(w, w', base, w.stored);
    RunStepKeepsInv(w, base, i, AcceptResult(r, ok), w');
  }

  lemma {:induction false} Adjacent(logs: seq<Log>, from: nat, to: nat, end: nat)
    requires from <= to <= end <= |logs|
    ensures logs[from..to] + logs[to..end] == logs[from..end]
  {
  }

  lemma {:induction false} ReceiveKeepsConsistent(logs: seq<Log>, r: Run)
    requires Ascending(logs) && RunConsistent(logs, r)
    requires r.phase.Pushing? && r.call.Returned? && r.call.batch != []
    ensures RunConsistent(logs, ReceiveResult(r))
  {
    if r.call.ok {
      PageEnd(logs, r.cursor, r.call.batch);
      var from, to := Covered(logs, r.start), Covered(logs, r.cursor);
      var next := ReceiveResult(r);
      var end := to + |r.call.batch|;
      Adjacent(logs, from, to, end);
      AppendNothing(logs[from..end]);
      assert next.delivered == r.delivered == logs[from..to] + r.call.batch == logs[from..end];
      assert Covered(logs, next.cursor) == end && PageInHand(next) == [];
    }
  }

  lemma {:induction false} ReceiveKeepsPassed(w: World, base: nat, r: Run)
    requires Ascending(w.logs) && base <= |w.exported|
    requires r.phase.Pushing? && r.call.Returned? && IsPage(w.logs, r.cursor, r.call.batch)
    requires RunPassed(w, base, r)
    ensures RunPassed(w, base, ReceiveResult(r))
  {
    if r.call.ok {
      PageEnd(w.logs, r.cursor, r.call.batch);
      AdvancePassesPage(w.logs, r.cursor, r.call.batch);
    }
  }

  lemma {:induction false} ReceiveKeepsInv(w: World, base: nat, i: nat)
    requires Inv(w, base) && Enabled(w, Receive(i))
    ensures Inv(Apply(w, Receive(i)), base)
  {
    var r := w.runs[i];
    assert RunConsistent(w.logs, r) && RunPassed(w, base, r);
    ReceiveKeepsConsistent(w.logs, r);
    ReceiveKeepsPassed(w, base, r);
    RunStepKeepsInv(w, base, i, ReceiveResult(r), Apply(w, Receive(i)));
  }

  // The remaining steps of a run move between phases without touching the logs.
  lemma {:induction false} PhaseStepKeepsInv(w: World, base: nat, s: Step, i: nat)
    requires Inv(w, base) && Enabled(w, s)
    requires s == Retry(i) || s == Publish(i) || s == CancelPublish(i) || s == Stop(i)
    ensures Inv(Apply(w, s), base)
  {
    var w' := Apply(w, s);
    assert w.runs[i] in w.runs;
    PhaseStepKeepsRun(w, base, s, i);
    RunStepKeepsInv(w, base, i, w'.runs[i], w');
  }

  lemma {:induction false} PhaseStepKeepsRun(w: World, base: nat, s: Step, i: nat)
    requires base <= |w.exported| && Enabled(w, s)
    requires s == Retry(i) || s == Publish(i) || s == CancelPublish(i) || s == Stop(i)
    requires RunConsistent(w.logs, w.runs[i]) && RunPassed(w, base, w.runs[i])
    ensures RunConsistent(w.logs, Apply(w, s).runs[i]) && RunPassed(Apply(w, s), base, Apply(w, s).runs[i])
  {
  }

  lemma {:induction false} StoreKeepsInv(w: World, base: nat, i: nat, ok: bool)
    requires Inv(w, base) && Enabled(w, StoreReturns(i, ok))
    ensures Inv(Apply(w, StoreReturns(i, ok)), base)
  {
    var r := w.runs[i];
    assert r in w.runs;
    assert RunConsistent(w.logs, r.(storing := None));
    RunStepKeepsInv(w, base, i, r.(storing := None), Apply(w, StoreReturns(i, ok)));
  }

  lemma {:induction false} StartKeepsInv(w: World, base: nat)
    requires Inv(w, base) && Enabled(w, StartRun)
    ensures Inv(Apply(w, StartRun), base)
  {
    var w' := Apply(w, StartRun);
    var k := Covered(w.logs, w.read.value);
    assert w.logs[k..k] == [];
    var r := w'.runs[|w.runs|];
    assert RunConsistent(w.logs, r) && RunPassed(w', base, r);
    forall o | o in w'.runs
      ensures RunConsistent(w'.logs, o) && RunPassed(w', base, o)
    {
      assert o == r || o in w.runs;
    }
  }

  lemma {:induction false} StorageStepKeepsInv(w: World, base: nat, s: Step)
    requires Inv(w, base) && (s.ReadPipeline? || s.Reset?)
    ensures Inv(Apply(w, s), base)
  {
    var w' := Apply(w, s);
    assert w'.logs == w.logs && w'.exported == w.exported;
    forall r | r in w'.runs
      ensures RunConsistent(w'.logs, r) && RunPassed(w', base, r)
    {
      assert r in w.runs;
    }
  }

  lemma {:induction false} StoresOf(runs: seq<Run>)
    ensures forall id :: id in Stores(runs) ==> exists r :: r in runs && r.storing == Some(id)
    ensures Stores(runs) == [] <==> forall r :: r in runs ==> r.storing.None?
  {
    if runs != [] {
      StoresOf(runs[1..]);
      assert forall r :: r in runs <==> r == runs[0] || r in runs[1..];
    }
  }

  lemma {:induction false} CrashKeepsInv(w: World, base: nat)
    requires Inv(w, base)
    ensures Inv(Apply(w, Crash), base)
  {
    var w' := Apply(w, Crash);
    StoresOf(w.runs);
    forall id | id in w'.late
      ensures Passed(w', base, Some(id))
    {
      if id !in w.late {
        var r :| r in w.runs && r.storing == Some(id);
        assert RunPassed(w, base, r);
      }
    }
  }

  lemma {:induction false} LateStoreKeepsInv(w: World, base: nat, i: nat, ok: bool)
    requires Inv(w, base) && Enabled(w, LateStore(i, ok))
    ensures Inv(Apply(w, LateStore(i, ok)), base)
  {
    var w' := Apply(w, LateStore(i, ok));
    assert w.late[i] in w.late;
    assert forall id :: id in w'.late ==> id in w.late;
    forall r | r in w'.runs
      ensures RunConsistent(w'.logs, r) && RunPassed(w', base, r)
    {
      assert r in w.runs;
    }
  }

  lemma {:induction false} StepKeepsInv(w: World, base: nat, s: Step)
    requires Inv(w, base) && Enabled(w, s)
    ensures Inv(Apply(w, s), base)
  {
    match s
    case Append(log) => AppendKeepsInv(w, base, log);
    case StartRun => StartKeepsInv(w, base);
    case Fetch(i, size) => FetchKeepsInv(w, base, i, size);
    case AcceptReturns(i, ok) => AcceptKeepsInv(w, base, i, ok);
    case Receive(i) => ReceiveKeepsInv(w, base, i);
    case Retry(i) => PhaseStepKeepsInv(w, base, s, i);
    case Publish(i) => PhaseStepKeepsInv(w, base, s, i);
    case CancelPublish(i) => PhaseStepKeepsInv(w, base, s, i);
    case Stop(i) => PhaseStepKeepsInv(w, base, s, i);
    case StoreReturns(i, ok) => StoreKeepsInv(w, base, i, ok);
    case FetchNothing(i) =>
    case ReadPipeline => StorageStepKeepsInv(w, base, s);
    case Reset => StorageStepKeepsInv(w, base, s);
    case Crash => CrashKeepsInv(w, base);
    case LateStore(i, ok) => LateStoreKeepsInv(w, base, i, ok);
  }

  lemma {:induction false} ExportsOnlyGrow(w: World, s: Step)
    requires Enabled(w, s)
    ensures w.exported <= Apply(w, s).exported
  {
  }

  lemma {:induction false} ExecutionKeepsInv(w: World, base: nat, steps: seq<Step>)
    requires Inv(w, base) && Executable(w, steps)
    ensures Inv(Execute(w, steps), base)
    ensures w.exported <= Execute(w, steps).exported
    decreases |steps|
  {
    if steps != [] {
      StepKeepsInv(w, base, steps[0]);
      ExportsOnlyGrow(w, steps[0]);
      ExecutionKeepsInv(Apply(w, steps[0]), base, steps[1..]);
    }
  }

  // Main results.

  // Every log at or below the stored cursor, or at or below the in-memory cursor of
  // a live run, has been in an Accept call that returned nil.
  lemma {:induction false} AtLeastOnce(steps: seq<Step>)
    requires Executable(Initial(), steps)
    ensures var w := Execute(Initial(), steps);
            forall log :: log in w.logs ==>
              && (!Above(log.id, w.stored) ==> log in w.exported)
              && (forall r :: r in w.runs && !r.phase.Stopped? && !Above(log.id, r.cursor) ==> log in w.exported)
  {
    ExecutionKeepsInv(Initial(), 0, steps);
    var w := Execute(Initial(), steps);
    assert w.exported[0..] == w.exported;
    forall r | r in w.runs
      ensures RunPassed(w, 0, r)
    {
    }
  }

  // `part` is a contiguous stretch of the logs and holds those above `start` that
  // are not above `end`.
  ghost predicate IsInterval(logs: seq<Log>, start: Cursor, end: Cursor, part: seq<Log>) {
    && (exists from, to :: 0 <= from <= to <= |logs| && part == logs[from..to])
    && forall log :: log in part <==> log in logs && Above(log.id, start) && !Above(log.id, end)
  }

  lemma {:induction false} BetweenCursors(logs: seq<Log>, start: Cursor, end: Cursor)
    requires Ascending(logs) && Covered(logs, start) <= Covered(logs, end)
    ensures IsInterval(logs, start, end, logs[Covered(logs, start)..Covered(logs, end)])
  {
    CoveredSplits(logs, start);
    CoveredSplits(logs, end);
    var from, to := Covered(logs, start), Covered(logs, end);
    forall log | log in logs && Above(log.id, start) && !Above(log.id, end)
      ensures log in logs[from..to]
    {
      var i :| 0 <= i < |logs| && logs[i] == log;
      assert logs[from..to][i - from] == log;
    }
  }

  // The Accept calls of one run that returned nil concatenate to the logs in
  // (start, cursor], ascending, without gap or duplicate; at most one more page,
  // the one directly after the cursor, has been accepted and not yet noted.
  lemma {:induction false} RunDeliversInterval(steps: seq<Step>, r: Run)
    requires Executable(Initial(), steps) && r in Execute(Initial(), steps).runs
    ensures var logs := Execute(Initial(), steps).logs;
            && Ascending(logs)
            && PageInHand(r) <= After(logs, r.cursor)
            && exists part :: r.delivered == part + PageInHand(r) && IsInterval(logs, r.start, r.cursor, part)
  {
    ExecutionKeepsInv(Initial(), 0, steps);
    DeliversInterval(Execute(Initial(), steps).logs, r);
  }

  lemma {:induction false} DeliversInterval(logs: seq<Log>, r: Run)
    requires Ascending(logs) && RunConsistent(logs, r)
    ensures PageInHand(r) <= After(logs, r.cursor)
    ensures exists part :: r.delivered == part + PageInHand(r) && IsInterval(logs, r.start, r.cursor, part)
  {
    BetweenCursors(logs, r.start, r.cursor);
    var part := logs[Covered(logs, r.start)..Covered(logs, r.cursor)];
    assert r.delivered == part + PageInHand(r) && IsInterval(logs, r.start, r.cursor, part);
    if PageInHand(r) != [] {
      PageIsPrefix(logs, r.cursor, r.call.batch);
    }
  }

  lemma {:induction false} PageIsPrefix(logs: seq<Log>, c: Cursor, batch: seq<Log>)
    requires IsPage(logs, c, batch)
    ensures batch <= After(logs, c)
  {
    assert After(logs, c)[..|batch|] == Page(logs, c, |batch|);
  }

  // What a reset guarantees. `Reset` clears the stored cursor so that every log is
  // delivered again. The cursor-storing goroutine of a stopped run may still be
  // inside StorePipelineState at that moment, and its write then lands after the reset.

  ghost predicate AllStopped(w: World) {
    forall r :: r in w.runs ==> r.phase.Stopped?
  }

  // Neither a goroutine nor a write left behind by a crash is storing a cursor.
  predicate NoStoreInProgress(w: World) {
    w.late == [] && forall i :: 0 <= i < |w.runs| ==> w.runs[i].storing.None?
  }

  // In every continuation of w, a log at or below the stored cursor has been
  // exported again since w.
  ghost predicate RedeliversAll(w: World) {
    forall steps: seq<Step> :: Executable(w, steps) ==>
      var w' := Execute(w, steps);
      |w.exported| <= |w'.exported|
      && forall log :: log in w'.logs && !Above(log.id, w'.stored) ==> log in w'.exported[|w.exported|..]
  }

  lemma {:induction false} QuietResetRestartsInv(w: World, base: nat)
    requires Inv(w, base) && AllStopped(w) && NoStoreInProgress(w)
    ensures Inv(Apply(w, Reset), |w.exported|)
  {
    var w' := Apply(w, Reset);
    forall r | r in w'.runs
      ensures RunPassed(w', |w.exported|, r)
    {
      var i :| 0 <= i < |w.runs| && w.runs[i] == r;
    }
  }

  // A store still in progress lands after the reset and moves the stored cursor
  // past logs that nobody has exported again.
  lemma {:induction false} StaleStoreLands(w: World, i: nat)
    requires Inv(w, 0) && i < |w.runs| && w.runs[i].storing.Some?
    ensures !RedeliversAll(Apply(w, Reset))
  {
    var reset := Apply(w, Reset);
    assert w.runs[i] in w.runs && RunConsistent(w.logs, w.runs[i]);
    StoreSpoils(reset, StoreReturns(i, true), w.runs[i].storing.value);
  }

  lemma {:induction false} LateStoreLands(w: World)
    requires Inv(w, 0) && w.late != []
    ensures !RedeliversAll(Apply(w, Reset))
  {
    var reset := Apply(w, Reset);
    assert w.late[0] in w.late;
    assert Passed(w, 0, Some(w.late[0]));
    StoreSpoils(reset, LateStore(0, true), w.late[0]);
  }

  lemma {:induction false} StoreSpoils(reset: World, s: Step, id: nat)
    requires Enabled(reset, s) && (s.StoreReturns? || s.LateStore?)
    requires Apply(reset, s).stored == Some(id) && Known(reset.logs, Some(id))
    ensures !RedeliversAll(reset)
  {
    var log :| log in reset.logs && log.id == id;
    var w' := Apply(reset, s);
    assert [s][1..] == [] && Executable(w', [s][1..]);
    assert Executable(reset, [s]) && Execute(reset, [s]) == w';
    assert w'.exported[|reset.exported|..] == [];
    assert log in w'.logs && !Above(log.id, w'.stored);
  }

  // With all runs stopped, a log at or below the stored cursor has been exported again
  // since the reset, whatever follows, if and only if no store is in progress.
  lemma {:induction false} ResetRedeliversIffQuiet(before: seq<Step>)
    requires Executable(Initial(), before) && AllStopped(Execute(Initial(), before))
    ensures RedeliversAll(Apply(Execute(Initial(), before), Reset))
            <==> NoStoreInProgress(Execute(Initial(), before))
  {
    var w := Execute(Initial(), before);
    var reset := Apply(w, Reset);
    ExecutionKeepsInv(Initial(), 0, before);
    if NoStoreInProgress(w) {
      QuietResetRestartsInv(w, 0);
      forall steps: seq<Step> | Executable(reset, steps)
        ensures Inv(Execute(reset, steps), |w.exported|)
      {
        ExecutionKeepsInv(reset, |w.exported|, steps);
      }
    } else if w.late != [] {
      LateStoreLands(w);
    } else {
      var i :| 0 <= i < |w.runs| && w.runs[i].storing.Some?;
      StaleStoreLands(w, i);
    }
  }

  // It does happen: one log is exported, its cursor is being stored, the run stops.

  const LOG := Log(1, "")

  function OneLogExported(): seq<Step> {
    [Append(LOG), ReadPipeline, StartRun, Fetch(0, 1), AcceptReturns(0, true), Receive(0), Publish(0), Stop(0)]
  }

  function AfterOneLog(): World {
    World([LOG], None, Some(None), [Run(None, Some(1), Stopped, Idle, Some(1), [LOG])], [LOG], [])
  }

  predicate Leads(w: World, s: Step, next: World) {
    Enabled(w, s) && Apply(w, s) == next
  }

  lemma {:induction false} ExecuteFrom(steps: seq<Step>, k: nat, w: World, next: World, end: World)
    requires k < |steps| && Leads(w, steps[k], next)
    requires Executable(next, steps[k + 1..]) && Execute(next, steps[k + 1..]) == end
    ensures Executable(w, steps[k..]) && Execute(w, steps[k..]) == end
  {
    assert steps[k..][1..] == steps[k + 1..];
  }

  // The worlds it goes through, with its one run.

  function WithRun(cursor: Cursor, phase: Phase, call: Call, storing: Option<nat>, exported: seq<Log>): World {
    World([LOG], None, Some(None), [Run(None, cursor, phase, call, storing, exported)], exported, [])
  }

  function Fetched(): World {
    WithRun(None, Pushing([LOG]), InFlight([LOG]), None, [])
  }

  function Accepted(): World {
    WithRun(None, Pushing([LOG]), Returned([LOG], true), None, [LOG])
  }

  function Appended(): World {
    World([LOG], None, None, [], [], [])
  }

  function Restored(): World {
    World([LOG], None, Some(None), [], [], [])
  }

  function Started(): World {
    WithRun(None, Polling, Idle, None, [])
  }

  function Received(): World {
    WithRun(Some(1), Publishing(1), Idle, None, [LOG])
  }

  function Published(): World {
    WithRun(Some(1), Polling, Idle, Some(1), [LOG])
  }

  lemma {:induction false} OneLogStarted()
    ensures Leads(Initial(), Append(LOG), Appended())
    ensures Leads(Appended(), ReadPipeline, Restored())
    ensures Leads(Restored(), StartRun, Started())
  {
    assert [] + [LOG] == [LOG];
  }

  lemma {:induction false} OneLogFetched()
    ensures Leads(Started(), Fetch(0, 1), Fetched())
  {
    assert Covered([LOG], None) == 0 && [LOG][0..1] == [LOG];
  }

  lemma {:induction false} OneLogAccepted()
    ensures Leads(Fetched(), AcceptReturns(0, true), Accepted())
  {
    assert [] + [LOG] == [LOG];
  }

  lemma {:induction false} OneLogPublished()
    ensures Leads(Accepted(), Receive(0), Received())
    ensures Leads(Received(), Publish(0), Published())
    ensures Leads(Published(), Stop(0), AfterOneLog())
  {
  }

  lemma {:induction false} ExecuteLast(s: seq<Step>)
    requires s == OneLogExported()
    ensures Executable(Accepted(), s[5..]) && Execute(Accepted(), s[5..]) == AfterOneLog()
  {
    OneLogPublished();
    assert s[8..] == [];
    ExecuteFrom(s, 7, Published(), AfterOneLog(), AfterOneLog());
    ExecuteFrom(s, 6, Received(), Published(), AfterOneLog());
    ExecuteFrom(s, 5, Accepted(), Received(), AfterOneLog());
  }

  lemma {:induction false} ExecuteMiddle(s: seq<Step>)
    requires s == OneLogExported()
    ensures Executable(Started(), s[3..]) && Execute(Started(), s[3..]) == AfterOneLog()
  {
    ExecuteLast(s);
    OneLogFetched();
    OneLogAccepted();
    ExecuteFrom(s, 4, Fetched(), Accepted(), AfterOneLog());
    ExecuteFrom(s, 3, Started(), Fetched(), AfterOneLog());
  }

  lemma {:induction false} ExecuteAll(s: seq<Step>)
    requires s == OneLogExported()
    ensures Executable(Initial(), s) && Execute(Initial(), s) == AfterOneLog()
  {
    ExecuteMiddle(s);
    OneLogStarted();
    ExecuteFrom(s, 2, Restored(), Started(), AfterOneLog());
    ExecuteFrom(s, 1, Appended(), Restored(), AfterOneLog());
    ExecuteFrom(s, 0, Initial(), Appended(), AfterOneLog());
    assert s[0..] == s;
  }

  lemma {:induction false} StoreInProgressAtReset()
    ensures Executable(Initial(), OneLogExported()) && Execute(Initial(), OneLogExported()) == AfterOneLog()
    ensures AllStopped(AfterOneLog()) && !NoStoreInProgress(AfterOneLog())
    ensures !RedeliversAll(Apply(AfterOneLog(), Reset))
  {
    ExecuteAll(OneLogExported());
    assert AfterOneLog().runs[0].storing.Some?;
    ResetRedeliversIffQuiet(OneLogExported());
  }
}
