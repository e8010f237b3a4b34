// `DriverFacade`: an asynchronous start, guarded by two channels, against any
// number of concurrent `Accept` and `Stop` calls. The states begin right after `Run`.
module DriverFacades {

  // The goroutine launched by `Run`.
  datatype Starter =
    | Calling  // inside c.Start
    | Backoff  // the select on startContext and the retry timer
    | Started  // Start returned nil, readyChan not closed yet
    | Leaving  // returned, the deferred close of startingChan still to come
    | Exited

  // One call of `Stop`.
  datatype Stopper =
    | Entering
    | Waiting               // start cancelled, waiting for startingChan or ctx
    | Checking              // about to test readyChan
    | StoppingDriver        // inside c.Driver.Stop
    | StopDone(ctxCancelled: bool, stoppedDriver: bool)

  // One call of `Accept`.
  datatype Acceptor = Admitted | AcceptingDriver | Rejected

  datatype Outcome = Success | Canceled | Failure

  // Calls of the wrapped driver: a Start that succeeded, an Accept, a Stop.
  datatype Event = StartSucceeded | AcceptCalled(i: nat) | StopCalled(i: nat)

  datatype Facade = Facade(
    starter: Starter,
    startCancelled: bool,
    ready: bool,          // readyChan is closed
    startingOver: bool,   // startingChan is closed
    stoppers: seq<Stopper>,
    acceptors: seq<Acceptor>,
    trace: seq<Event>)

  datatype Step =
    | StartReturns(outcome: Outcome)
    | RetryElapses
    | StartContextDone
    | CloseReady
    | CloseStarting
    | CallStop
    | EnterStop(i: nat)
    | WaitEnds(i: nat)
    | WaitCancelled(i: nat)
    | CheckReady(i: nat)
    | DriverStopReturns(i: nat)
    | CallAccept
    | ForwardAccept(i: nat)

  function Initial(): Facade {
    Facade(Calling, false, false, false, [], [], [])
  }

  predicate Enabled(f: Facade, s: Step) {
    match s
    case StartReturns(_) => f.starter.Calling?
    case RetryElapses => f.starter.Backoff?
    case StartContextDone => f.starter.Backoff? && f.startCancelled
    case CloseReady => f.starter.Started?
    case CloseStarting => f.starter.Leaving?
    case CallStop => true
    case EnterStop(i) => i < |f.stoppers| && f.stoppers[i].Entering?
    case WaitEnds(i) => i < |f.stoppers| && f.stoppers[i].Waiting? && f.startingOver
    case WaitCancelled(i) => i < |f.stoppers| && f.stoppers[i].Waiting?
    case CheckReady(i) => i < |f.stoppers| && f.stoppers[i].Checking?
    case DriverStopReturns(i) => i < |f.stoppers| && f.stoppers[i].StoppingDriver?
    case CallAccept => true
    case ForwardAccept(i) => i < |f.acceptors| && f.acceptors[i].Admitted?
  }

  function Apply(f: Facade, s: Step): Facade
    requires Enabled(f, s)
  {
    match s
    case StartReturns(Success) => f.(starter := Started, trace := f.trace + [StartSucceeded])
    case StartReturns(Canceled) => f.(starter := Leaving)
    case StartReturns(Failure) => f.(starter := Backoff)
    case RetryElapses => f.(starter := Calling)
    case StartContextDone => f.(starter := Leaving)
    case CloseReady => f.(starter := Leaving, ready := true)
    case CloseStarting => f.(starter := Exited, startingOver := true)
    case CallStop => f.(stoppers := f.stoppers + [Entering])
    case EnterStop(i) =>
      if f.startingOver then f.(stoppers := f.stoppers[i := Checking])
      else f.(stoppers := f.stoppers[i := Waiting], startCancelled := true)
    case WaitEnds(i) => f.(stoppers := f.stoppers[i := Checking])
    case WaitCancelled(i) => f.(stoppers := f.stoppers[i := StopDone(true, false)])
    case CheckReady(i) =>
      if f.ready then f.(stoppers := f.stoppers[i := StoppingDriver], trace := f.trace + [StopCalled(i)])
      else f.(stoppers := f.stoppers[i := StopDone(false, false)])
    case DriverStopReturns(i) => f.(stoppers := f.stoppers[i := StopDone(false, true)])
    case CallAccept => f.(acceptors := f.acceptors + [if f.ready then Admitted else Rejected])
    case ForwardAccept(i) =>
      f.(acceptors := f.acceptors[i := AcceptingDriver], trace := f.trace + [AcceptCalled(i)])
  }

  predicate Executable(f: Facade, steps: seq<Step>)
    decreases |steps|
  {
    steps == [] || (Enabled(f, steps[0]) && Executable(Apply(f, steps[0]), steps[1..]))
  }

  function Execute(f: Facade, steps: seq<Step>): Facade
    requires Executable(f, steps)
    decreases |steps|
  {
    if steps == [] then f else Execute(Apply(f, steps[0]), steps[1..])
  }

  // The invariant.

  predicate StartedOnce(trace: seq<Event>) {
    forall i, j :: 0 <= i < j < |trace| && trace[i].StartSucceeded? ==> !trace[j].StartSucceeded?
  }

  // Every other call of the driver comes after its successful start.
  ghost predicate StartedFirst(trace: seq<Event>) {
    forall k :: 0 <= k < |trace| && !trace[k].StartSucceeded? ==> StartSucceeded in trace[..k]
  }

  predicate StarterConsistent(f: Facade) {
    && (f.starter.Calling? || f.starter.Backoff? ==> !f.ready && StartSucceeded !in f.trace)
    && (f.starter.Started? ==> !f.ready && StartSucceeded in f.trace)
    && (f.starter.Leaving? || f.starter.Exited? ==> (f.ready <==> StartSucceeded in f.trace))
    && (f.startingOver <==> f.starter.Exited?)
  }

  predicate StopperConsistent(f: Facade, i: nat)
    requires i < |f.stoppers|
  {
    match f.stoppers[i]
    case Entering => true
    case Waiting => f.startCancelled
    case Checking => f.startingOver
    case StoppingDriver => f.ready && StopCalled(i) in f.trace
    case StopDone(ctxCancelled, stoppedDriver) =>
      if ctxCancelled then !stoppedDriver
      else if stoppedDriver then f.ready && StopCalled(i) in f.trace
      else f.startingOver && !f.ready
  }

  ghost predicate Inv(f: Facade) {
    && StartedOnce(f.trace)
    && StartedFirst(f.trace)
    && StarterConsistent(f)
    && (forall i :: 0 <= i < |f.stoppers| ==> StopperConsistent(f, i))
    && (forall i :: 0 <= i < |f.acceptors| && !f.acceptors[i].Rejected? ==> f.ready)
  }

  lemma {:induction false} ExtendTrace(trace: seq<Event>, e: Event)
    requires StartedOnce(trace) && StartedFirst(trace)
    requires e.StartSucceeded? <==> StartSucceeded !in trace
    ensures StartedOnce(trace + [e]) && StartedFirst(trace + [e])
  {
    forall k | 0 <= k < |trace + [e]| && !(trace + [e])[k].StartSucceeded?
      ensures StartSucceeded in (trace + [e])[..k]
    {
      assert (trace + [e])[..k] == trace[..k];
      assert trace[..|trace|] == trace;
    }
  }

  lemma {:induction false} StepKeepsInv(f: Facade, s: Step)
    requires Inv(f) && Enabled(f, s)
    ensures Inv(Apply(f, s))
  {
    var f' := Apply(f, s);
    if f'.trace != f.trace {
      ExtendTrace(f.trace, f'.trace[|f.trace|]);
    }
    forall i | 0 <= i < |f'.stoppers|
      ensures StopperConsistent(f', i)
    {
      StepKeepsStopper(f, s, i);
    }
  }

  lemma {:induction false} StepKeepsStopper(f: Facade, s: Step, i: nat)
    requires StarterConsistent(f) && Enabled(f, s) && i < |Apply(f, s).stoppers|
    requires i < |f.stoppers| ==> StopperConsistent(f, i)
    ensures StopperConsistent(Apply(f, s), i)
  {
  }

  lemma {:induction false} ExecutionKeepsInv(f: Facade, steps: seq<Step>)
    requires Inv(f) && Executable(f, steps)
    ensures Inv(Execute(f, steps))
    decreases |steps|
  {
    if steps != [] {
      StepKeepsInv(f, steps[0]);
      ExecutionKeepsInv(Apply(f, steps[0]), steps[1..]);
    }
  }

  // A call is forwarded to the driver at most once, and a rejected one never.
  ghost predicate AcceptsForwarded(f: Facade) {
    forall i: nat :: AcceptCalled(i) in f.trace <==> i < |f.acceptors| && f.acceptors[i].AcceptingDriver?
  }

  lemma {:induction false} StepKeepsAccepts(f: Facade, s: Step)
    requires AcceptsForwarded(f) && Enabled(f, s)
    ensures AcceptsForwarded(Apply(f, s))
  {
    var f' := Apply(f, s);
    forall i: nat
      ensures AcceptCalled(i) in f'.trace <==> i < |f'.acceptors| && f'.acceptors[i].AcceptingDriver?
    {
      assert AcceptCalled(i) in f.trace <==> i < |f.acceptors| && f.acceptors[i].AcceptingDriver?;
    }
  }

  lemma {:induction false} ExecutionKeepsAccepts(f: Facade, steps: seq<Step>)
    requires AcceptsForwarded(f) && Executable(f, steps)
    ensures AcceptsForwarded(Execute(f, steps))
    decreases |steps|
  {
    if steps != [] {
      StepKeepsAccepts(f, steps[0]);
      ExecutionKeepsAccepts(Apply(f, steps[0]), steps[1..]);
    }
  }

  // The readiness of the moment of the call settles it.
  lemma {:induction false} AdmissionIsFinal(f: Facade, steps: seq<Step>, i: nat)
    requires Executable(f, steps) && i < |f.acceptors|
    ensures var g := Execute(f, steps);
            i < |g.acceptors| && (g.acceptors[i].Rejected? <==> f.acceptors[i].Rejected?)
    decreases |steps|
  {
    if steps != [] {
      AdmissionIsFinal(Apply(f, steps[0]), steps[1..], i);
    }
  }

  // Once the starting goroutine is gone without success, no success can follow.
  lemma {:induction false} FailedStartIsFinal(f: Facade, steps: seq<Step>)
    requires f.starter.Exited? && StartSucceeded !in f.trace && Executable(f, steps)
    ensures StartSucceeded !in Execute(f, steps).trace
    decreases |steps|
  {
    if steps != [] {
      FailedStartIsFinal(Apply(f, steps[0]), steps[1..]);
    }
  }

  // Main results.

  // The driver is started successfully at most once, and is neither fed nor stopped
  // before that; and no channel is closed twice.
  lemma {:induction false} DriverUsedOnlyAfterStart(steps: seq<Step>)
    requires Executable(Initial(), steps)
    ensures var f := Execute(Initial(), steps);
            && StartedOnce(f.trace)
            && (forall k :: 0 <= k < |f.trace| && !f.trace[k].StartSucceeded? ==> StartSucceeded in f.trace[..k])
            && (Enabled(f, CloseReady) ==> !f.ready)
            && (Enabled(f, CloseStarting) ==> !f.startingOver)
  {
    ExecutionKeepsInv(Initial(), steps);
  }

  // A `Stop` that returns without a cancelled context has stopped the started driver,
  // or the driver has not started and never will.
  lemma {:induction false} StopIsConclusive(steps: seq<Step>, i: nat)
    requires Executable(Initial(), steps)
    requires i < |Execute(Initial(), steps).stoppers|
    requires Execute(Initial(), steps).stoppers[i].StopDone? && !Execute(Initial(), steps).stoppers[i].ctxCancelled
    ensures var f := Execute(Initial(), steps);
            if f.stoppers[i].stoppedDriver then
              exists k :: 0 <= k < |f.trace| && f.trace[k] == StopCalled(i) && StartSucceeded in f.trace[..k]
            else
              forall more: seq<Step> :: Executable(f, more) ==> StartSucceeded !in Execute(f, more).trace
  {
    ExecutionKeepsInv(Initial(), steps);
    var f := Execute(Initial(), steps);
    assert StopperConsistent(f, i);
    if !f.stoppers[i].stoppedDriver {
      forall more: seq<Step> | Executable(f, more)
        ensures StartSucceeded !in Execute(f, more).trace
      {
        FailedStartIsFinal(f, more);
      }
    }
  }

  // An `Accept` called while the facade is ready is at every later moment about to be
  // forwarded or has been, and forwarding it calls the driver. One called earlier never is.
  lemma {:induction false} ForwardedIffReady(before: seq<Step>, after: seq<Step>)
    requires Executable(Initial(), before)
    requires Executable(Apply(Execute(Initial(), before), CallAccept), after)
    ensures var f := Execute(Initial(), before);
            var i := |f.acceptors|;
            var g := Execute(Apply(f, CallAccept), after);
            && (Enabled(g, ForwardAccept(i)) || AcceptCalled(i) in g.trace <==> f.ready)
            && (Enabled(g, ForwardAccept(i)) ==> AcceptCalled(i) in Apply(g, ForwardAccept(i)).trace)
  {
    ExecutionKeepsAccepts(Initial(), before);
    var f := Execute(Initial(), before);
    StepKeepsAccepts(f, CallAccept);
    ExecutionKeepsAccepts(Apply(f, CallAccept), after);
    AdmissionIsFinal(Apply(f, CallAccept), after, |f.acceptors|);
  }

  // A failing start is retried: while nobody calls `Stop` and no start reports a cancelled
  // context, the goroutine leaves with success only.
  lemma {:induction false} RetriesUntilStarted(steps: seq<Step>)
    requires Executable(Initial(), steps)
    requires StartReturns(Canceled) !in steps && CallStop !in steps
    ensures var f := Execute(Initial(), steps); f.starter in {Leaving, Exited} ==> f.ready
  {
    UnstoppedLeavesReady(Initial(), steps);
  }

  lemma {:induction false} UnstoppedLeavesReady(f: Facade, steps: seq<Step>)
    requires Executable(f, steps) && StarterConsistent(f) && !(f.starter in {Leaving, Exited})
    requires f.stoppers == [] && !f.startCancelled
    requires StartReturns(Canceled) !in steps && CallStop !in steps
    ensures var g := Execute(f, steps); g.starter in {Leaving, Exited} ==> g.ready
    decreases |steps|
  {
    if steps != [] {
      var next := Apply(f, steps[0]);
      assert steps[0] in steps;
      if next.starter == Leaving {
        StaysReady(next, steps[1..]);
      } else {
        UnstoppedLeavesReady(next, steps[1..]);
      }
    }
  }

  lemma {:induction false} StaysReady(f: Facade, steps: seq<Step>)
    requires f.ready && Executable(f, steps)
    ensures Execute(f, steps).ready
    decreases |steps|
  {
    if steps != [] {
      StaysReady(Apply(f, steps[0]), steps[1..]);
    }
  }

  // The steps of one `Stop`, once the starting goroutine is gone.
  function RestOfStop(f: Facade, i: nat): seq<Step>
    requires i < |f.stoppers|
  {
    var check := [CheckReady(i)] + if f.ready then [DriverStopReturns(i)] else [];
    match f.stoppers[i]
    case Entering => [EnterStop(i)] + check
    case Waiting => [WaitEnds(i)] + check
    case Checking => check
    case StoppingDriver => [DriverStopReturns(i)]
    case StopDone(_, _) => []
  }

  // Taking these steps, stopper i comes to its end.
  predicate StopsBy(f: Facade, i: nat, rest: seq<Step>, stoppedDriver: bool) {
    && Executable(f, rest)
    && i < |Execute(f, rest).stoppers| && Execute(f, rest).stoppers[i] == StopDone(false, stoppedDriver)
  }

  lemma {:induction false} ChecksAndStops(f: Facade, i: nat)
    requires i < |f.stoppers| && f.stoppers[i] == Checking
    ensures StopsBy(f, i, RestOfStop(f, i), f.ready)
  {
    var checked := Apply(f, CheckReady(i));
    if f.ready {
      assert RestOfStop(f, i)[1..] == [DriverStopReturns(i)];
      StopsDriver(checked, i);
    } else {
      assert RestOfStop(f, i)[1..] == [];
    }
  }

  lemma {:induction false} StopsDriver(f: Facade, i: nat)
    requires i < |f.stoppers| && f.stoppers[i] == StoppingDriver
    ensures StopsBy(f, i, [DriverStopReturns(i)], true)
  {
    assert [DriverStopReturns(i)][1..] == [];
    assert Executable(Apply(f, DriverStopReturns(i)), []);
  }

  // No `Stop` hangs on anything but the starting goroutine and its own driver: from then on
  // it comes to its end, and has stopped the driver if that was started.
  lemma {:induction false} StopComesToEnd(steps: seq<Step>, i: nat)
    requires Executable(Initial(), steps)
    requires Execute(Initial(), steps).starter.Exited? && i < |Execute(Initial(), steps).stoppers|
    requires !Execute(Initial(), steps).stoppers[i].StopDone?
    ensures var f := Execute(Initial(), steps);
            StopsBy(f, i, RestOfStop(f, i), StartSucceeded in f.trace)
  {
    ExecutionKeepsInv(Initial(), steps);
    var f := Execute(Initial(), steps);
    assert StopperConsistent(f, i);
    match f.stoppers[i]
    case Entering =>
      assert RestOfStop(f, i)[1..] == RestOfStop(Apply(f, EnterStop(i)), i);
      ChecksAndStops(Apply(f, EnterStop(i)), i);
    case Waiting =>
      assert RestOfStop(f, i)[1..] == RestOfStop(Apply(f, WaitEnds(i)), i);
      ChecksAndStops(Apply(f, WaitEnds(i)), i);
    case Checking => ChecksAndStops(f, i);
    case StoppingDriver => StopsDriver(f, i);
  }

  // The steps of the starting goroutine, once its context is cancelled.
  function RestOfStart(f: Facade): seq<Step> {
    match f.starter
    case Calling => [StartReturns(Canceled), CloseStarting]
    case Backoff => [StartContextDone, CloseStarting]
    case Started => [CloseReady, CloseStarting]
    case Leaving => [CloseStarting]
    case Exited => []
  }

  lemma {:induction false} LastStep(f: Facade)
    requires f.starter.Leaving?
    ensures Executable(f, [CloseStarting]) && Execute(f, [CloseStarting]) == f.(starter := Exited, startingOver := true)
  {
    var g := Apply(f, CloseStarting);
    assert [CloseStarting][1..] == [] && Executable(g, []) && Execute(g, []) == g;
  }

  lemma {:induction false} StartComesToEnd(f: Facade)
    requires f.startCancelled || f.starter.Exited?
    ensures Executable(f, RestOfStart(f))
    ensures var g := Execute(f, RestOfStart(f));
            g.starter.Exited? && g.stoppers == f.stoppers && (g.startingOver || f.starter.Exited?)
  {
    var rest := RestOfStart(f);
    if |rest| == 2 {
      assert rest[1..] == [CloseStarting];
      LastStep(Apply(f, rest[0]));
    } else if |rest| == 1 {
      LastStep(f);
    }
  }

  // A `Stop` called at any moment can return.
  lemma {:induction false} StopCanReturn(steps: seq<Step>)
    requires Executable(Initial(), steps)
    ensures var f := Execute(Initial(), steps);
            var i := |f.stoppers|;
            && Enabled(f, CallStop) && Enabled(Apply(f, CallStop), EnterStop(i))
            && var entered := Apply(Apply(f, CallStop), EnterStop(i));
               && Executable(entered, RestOfStart(entered))
               && var over := Execute(entered, RestOfStart(entered));
                  i < |over.stoppers| && StopsBy(over, i, RestOfStop(over, i), over.ready)
  {
    ExecutionKeepsInv(Initial(), steps);
    var f := Execute(Initial(), steps);
    var i := |f.stoppers|;
    var entered := Apply(Apply(f, CallStop), EnterStop(i));
    StartComesToEnd(entered);
    var over := Execute(entered, RestOfStart(entered));
    if over.stoppers[i].Waiting? {
      assert RestOfStop(over, i)[1..] == RestOfStop(Apply(over, WaitEnds(i)), i);
      ChecksAndStops(Apply(over, WaitEnds(i)), i);
    } else {
      ChecksAndStops(over, i);
    }
  }

  // Both waits have an end of their own: a failed start is tried again, and a `Stop` that
  // waits for the starting goroutine returns when its context is cancelled.
  lemma {:induction false} WaitsEnd(f: Facade, i: nat)
    requires i < |f.stoppers|
    ensures f.starter.Calling? ==>
              && Enabled(Apply(f, StartReturns(Failure)), RetryElapses)
              && Apply(Apply(f, StartReturns(Failure)), RetryElapses) == f
    ensures f.stoppers[i].Waiting? ==>
              && Enabled(f, WaitCancelled(i))
              && Apply(f, WaitCancelled(i)) == f.(stoppers := f.stoppers[i := StopDone(true, false)])
  {
  }
}
