// `PipelineHandler.Run` as the loop it is. Whatever it does, in whatever
// surroundings, is an execution of the protocol.
module PipelineHandlers {
  import opened Wrappers
  import opened PipelineProtocol
  import opened PipelineSafety

  lemma {:induction false} ExecuteOneMore(w: World, steps: seq<Step>, s: Step)
    requires Executable(w, steps) && Enabled(Execute(w, steps), s)
    ensures Executable(w, steps + [s])
    ensures Execute(w, steps + [s]) == Apply(Execute(w, steps), s)
    decreases |steps|
  {
    if steps == [] {
      assert [s][1..] == [];
      assert Executable(Apply(w, s), [s][1..]);
    } else {
      assert (steps + [s])[1..] == steps[1..] + [s];
      ExecuteOneMore(Apply(w, steps[0]), steps[1..], s);
    }
  }

  // The steps that `Run` number i itself takes, and the crash that ends it.
  predicate Own(s: Step, i: nat) {
    s == FetchNothing(i) || (s.Fetch? && s.i == i) || s == Receive(i) || s == Retry(i)
    || s == Publish(i) || s == CancelPublish(i) || s == Stop(i) || s == Crash
  }

  // The steps of run i among those of a trace.
  function OwnSteps(trace: seq<Step>, i: nat): seq<Step> {
    if trace == [] then []
    else
      var n := |trace| - 1;
      OwnSteps(trace[..n], i) + if Own(trace[n], i) then [trace[n]] else []
  }

  lemma {:induction false} OwnOneMore(trace: seq<Step>, s: Step, i: nat)
    ensures OwnSteps(trace + [s], i) == OwnSteps(trace, i) + if Own(s, i) then [s] else []
  {
    assert (trace + [s])[..|trace|] == trace;
  }

  // What a handler learns from outside: the answer to a ListLogs, what it finds on errChan,
  // and whether the storing goroutine takes the cursor.
  datatype Observation =
    | Listed(cursor: Cursor, size: nat, page: Option<seq<Log>>) // None is an error
    | Looked(call: Call)
    | Sent(taken: bool)
  {
    // A failed fetch, or a failed Accept.
    predicate Failed() {
      (Listed? && page.None?) || (Looked? && call.Returned? && !call.ok)
    }

    predicate Delivered() {
      Looked? && call.Returned? && call.ok
    }
  }

  // Every listing was asked for with this page size.
  predicate AsksFor(observed: seq<Observation>, size: nat) {
    forall o :: o in observed && o.Listed? ==> o.size == size
  }

  lemma {:induction false} AsksForMore(
      start: seq<Observation>, before: seq<Observation>, after: seq<Observation>, size: nat)
    requires start <= before <= after && AsksFor(before[|start|..], size)
    requires forall k :: |before| <= k < |after| && after[k].Listed? ==> after[k].size == size
    ensures AsksFor(after[|start|..], size)
  {
    forall o | o in after[|start|..] && o.Listed?
      ensures o.size == size
    {
      var k :| |start| <= k < |after| && after[k] == o;
      assert k < |before| ==> before[|start|..][k - |start|] == o;
    }
  }

  // What the handler does about it when no stop request arrives: it pushes exactly the
  // page it was given, notes the end of every Accept, and tries again after a failure.
  function Response(o: Observation, i: nat): seq<Step> {
    match o
    case Listed(_, _, page) =>
      if page.Some? && page.value != [] then [Fetch(i, |page.value|)] else [FetchNothing(i)]
    case Looked(call) =>
      if !call.Returned? then [] else if call.ok then [Receive(i)] else [Receive(i), Retry(i)]
    case Sent(taken) => if taken then [Publish(i)] else []
  }

  function Responses(observed: seq<Observation>, i: nat): seq<Step> {
    if observed == [] then []
    else
      var n := |observed| - 1;
      Responses(observed[..n], i) + Response(observed[n], i)
  }

  lemma {:induction false} RespondOneMore(observed: seq<Observation>, o: Observation, i: nat)
    ensures Responses(observed + [o], i) == Responses(observed, i) + Response(o, i)
  {
    assert (observed + [o])[..|observed|] == observed;
  }

  // A stop request ends the run where it waits for something, or in the wait after a failure.
  predicate StoppedAfter(steps: seq<Step>, observed: seq<Observation>, i: nat) {
    || steps == Responses(observed, i) + [Stop(i)]
    || (observed != [] && observed[|observed| - 1].Failed()
        && var before := Responses(observed[..|observed| - 1], i);
           steps == before + if observed[|observed| - 1].Listed? then [Stop(i)] else [Receive(i), Stop(i)])
  }

  // The handler's steps are its responses to what it observed, and maybe a stop.
  predicate Answers(steps: seq<Step>, observed: seq<Observation>, i: nat, stopped: bool) {
    if stopped then StoppedAfter(steps, observed, i) else steps == Responses(observed, i)
  }

  // Everything outside the handler: storage, exporter, log writer, the goroutines
  // started next to `Run`, and other runs. `script` is what they are going to do.
  class Environment {
    var world: World
    var script: seq<Step>
    ghost var origin: World
    ghost var trace: seq<Step>
    ghost var observed: seq<Observation>

    ghost predicate Valid()
      reads this
    {
      Executable(origin, trace) && Execute(origin, trace) == world
    }

    ghost function Steps(i: nat): seq<Step>
      reads this
    {
      OwnSteps(trace, i)
    }

    constructor (world: World, script: seq<Step>)
      ensures Valid() && this.world == world && origin == world && trace == [] && observed == []
    {
      this.world := world;
      this.script := script;
      this.origin := world;
      this.trace := [];
      this.observed := [];
    }

    method Do(s: Step)
      requires Valid() && Enabled(world, s)
      modifies this`world, this`trace
      ensures Valid() && world == Apply(old(world), s) && trace == old(trace) + [s]
      ensures forall i: nat :: Steps(i) == old(Steps(i)) + if Own(s, i) then [s] else []
    {
      ExecuteOneMore(origin, trace, s);
      forall i: nat
        ensures OwnSteps(trace + [s], i) == OwnSteps(trace, i) + if Own(s, i) then [s] else []
      {
        OwnOneMore(trace, s, i);
      }
      world := Apply(world, s);
      trace := trace + [s];
    }

    // What the others may do to run i: complete its Accept call, or free its storing goroutine.
    static predicate Spared(was: Run, r: Run) {
      && r.start == was.start && r.cursor == was.cursor && r.phase == was.phase
      && (r.call == was.call || (was.call.InFlight? && r.call.Returned? && r.call.batch == was.call.batch))
    }

    // Any number of the others' steps.
    method Interfere(i: nat)
      requires Valid() && i < |world.runs|
      modifies this
      ensures Valid() && origin == old(origin) && old(trace) <= trace
      ensures observed == old(observed) && Steps(i) == old(Steps(i))
      ensures i < |world.runs| && Spared(old(world.runs[i]), world.runs[i])
    {
      var quiet := *;
      while script != [] && !quiet
        invariant Valid() && origin == old(origin) && old(trace) <= trace
        invariant observed == old(observed) && Steps(i) == old(Steps(i))
        invariant i < |world.runs| && Spared(old(world.runs[i]), world.runs[i])
        decreases |script|
      {
        if !Own(script[0], i) && Enabled(world, script[0]) {
          Do(script[0]);
        }
        script := script[1..];
        quiet := *;
      }
    }

    // The first page above the cursor, or an error.
    method ListLogs(cursor: Cursor, pageSize: nat) returns (page: Option<seq<Log>>)
      requires 0 < pageSize
      modifies this`observed
      ensures observed == old(observed) + [Listed(cursor, pageSize, page)]
      ensures page.Some? ==> FirstPage(world.logs, cursor, pageSize, page.value)
    {
      var fails := *;
      if fails {
        page := None;
      } else {
        var after := After(world.logs, cursor);
        page := Some(if |after| <= pageSize then after else after[..pageSize]);
      }
      observed := observed + [Listed(cursor, pageSize, page)];
    }

    // What the handler of run i finds on errChan.
    method Look(i: nat) returns (call: Call)
      requires i < |world.runs|
      modifies this`observed
      ensures call == world.runs[i].call && observed == old(observed) + [Looked(call)]
    {
      call := world.runs[i].call;
      observed := observed + [Looked(call)];
    }

    // Whether the storing goroutine of run i is ready to take the cursor.
    method TrySend(i: nat) returns (taken: bool)
      requires i < |world.runs|
      modifies this`observed
      ensures taken == world.runs[i].storing.None? && observed == old(observed) + [Sent(taken)]
    {
      taken := world.runs[i].storing.None?;
      observed := observed + [Sent(taken)];
    }
  }

  // All that is above the cursor, up to the page size.
  predicate FirstPage(logs: seq<Log>, cursor: Cursor, size: nat, page: seq<Log>) {
    var all := |After(logs, cursor)|;
    |page| == (if all <= size then all else size) && page == Page(logs, cursor, |page|)
  }

  lemma {:induction false} FirstPageIsPage(logs: seq<Log>, cursor: Cursor, size: nat, page: seq<Log>)
    requires FirstPage(logs, cursor, size, page)
    ensures page != [] ==> IsPage(logs, cursor, page)
    ensures 0 < size ==> (page == [] <==> After(logs, cursor) == [])
  {
  }

  // The protocol's guarantees hold of every Run, at any moment of it.
  lemma {:induction false} RunIsSafe(env: Environment, i: nat)
    requires env.Valid() && env.origin == Initial() && i < |env.world.runs|
    ensures var r, logs := env.world.runs[i], env.world.logs;
            && (exists part :: r.delivered == part + PageInHand(r) && IsInterval(logs, r.start, r.cursor, part))
            && (!r.phase.Stopped? ==>
                  forall log :: log in logs && !Above(log.id, r.cursor) ==> log in env.world.exported)
  {
    AtLeastOnce(env.trace);
    RunDeliversInterval(env.trace, env.world.runs[i]);
  }

  class PipelineHandler {
    const pageSize: nat
    var lastLogID: Cursor

    constructor (lastLogID: Cursor, pageSize: nat)
      ensures this.lastLogID == lastLogID && this.pageSize == pageSize
    {
      this.lastLogID := lastLogID;
      this.pageSize := pageSize;
    }

    // The handler's field agrees with run i of the protocol, which stands at `phase`.
    ghost predicate In(env: Environment, i: nat, phase: Phase)
      reads this, env
    {
      && 0 < pageSize
      && env.Valid()
      && i < |env.world.runs|
      && var r := env.world.runs[i];
         && r.cursor == lastLogID && r.phase == phase
         && (phase.Pushing? ==> !r.call.Idle? && r.call.batch == phase.batch && phase.batch != [])
    }

    // Besides, it has answered everything it observed.
    ghost predicate At(env: Environment, i: nat, phase: Phase)
      reads this, env
    {
      In(env, i, phase) && Answers(env.Steps(i), env.observed, i, phase.Stopped?)
    }

    // The environment goes on from the old state, and run i is still the same run.
    twostate predicate Continues(env: Environment, i: nat)
      requires i < |old(env.world.runs)|
      reads env
    {
      && env.origin == old(env.origin) && old(env.trace) <= env.trace
      && i < |env.world.runs| && env.world.runs[i].start == old(env.world.runs[i].start)
    }

    // Waiting: the others may go on.
    method Wait(env: Environment, i: nat, ghost phase: Phase)
      requires In(env, i, phase)
      modifies env
      ensures In(env, i, phase) && Continues(env, i)
      ensures env.Steps(i) == old(env.Steps(i)) && env.observed == old(env.observed)
    {
      env.Interfere(i);
    }

    // The handler's own steps.

    method TakeStop(env: Environment, i: nat, ghost phase: Phase)
      requires In(env, i, phase) && (phase.Polling? || phase.Pushing? || phase.RetryWait?)
      modifies env
      ensures In(env, i, Stopped) && Continues(env, i)
      ensures env.Steps(i) == old(env.Steps(i)) + [Stop(i)] && env.observed == old(env.observed)
    {
      env.Do(Stop(i));
    }

    // Starts to push a page, or notes that there is none.
    method TakePage(env: Environment, i: nat, page: seq<Log>)
      requires In(env, i, Polling)
      requires page != [] ==> IsPage(env.world.logs, lastLogID, page)
      modifies env
      ensures In(env, i, if page == [] then Polling else Pushing(page)) && Continues(env, i)
      ensures env.Steps(i) == old(env.Steps(i)) + [if page == [] then FetchNothing(i) else Fetch(i, |page|)]
      ensures env.observed == old(env.observed) && env.world.logs == old(env.world.logs)
    {
      if page == [] {
        env.Do(FetchNothing(i));
      } else {
        env.Do(Fetch(i, |page|));
      }
    }

    // Notes the result of Accept.
    method TakeResult(env: Environment, i: nat, page: seq<Log>) returns (ok: bool)
      requires In(env, i, Pushing(page)) && env.world.runs[i].call.Returned?
      modifies this, env
      ensures ok == old(env.world.runs[i].call.ok)
      ensures lastLogID == if ok then Some(Last(page)) else old(lastLogID)
      ensures In(env, i, if ok then Publishing(Last(page)) else RetryWait(page)) && Continues(env, i)
      ensures env.Steps(i) == old(env.Steps(i)) + [Receive(i)] && env.observed == old(env.observed)
    {
      ok := env.world.runs[i].call.ok;
      env.Do(Receive(i));
      if ok {
        lastLogID := Some(Last(page));
      }
    }

    method TryAgain(env: Environment, i: nat, page: seq<Log>)
      requires In(env, i, RetryWait(page)) && page != []
      modifies env
      ensures In(env, i, Pushing(page)) && Continues(env, i)
      ensures env.Steps(i) == old(env.Steps(i)) + [Retry(i)] && env.observed == old(env.observed)
    {
      env.Do(Retry(i));
    }

    method SendCursor(env: Environment, i: nat, id: nat)
      requires In(env, i, Publishing(id)) && env.world.runs[i].storing.None?
      modifies env
      ensures In(env, i, Polling) && Continues(env, i)
      ensures env.Steps(i) == old(env.Steps(i)) + [Publish(i)] && env.observed == old(env.observed)
    {
      env.Do(Publish(i));
    }

    // The loop, for `budget` turns: each is one observation, or the stop. What it does is
    // determined by what it observes, and it does not cease to observe before it is stopped.
    method Run(env: Environment, i: nat, budget: nat) returns (stopped: bool)
      requires At(env, i, Polling)
      modifies this, env
      ensures env.Valid() && Continues(env, i)
      ensures env.world.runs[i].cursor == lastLogID
      ensures stopped <==> env.world.runs[i].phase.Stopped?
      ensures Answers(env.Steps(i), env.observed, i, stopped)
      ensures old(env.observed) <= env.observed
      ensures !stopped ==> |env.observed| == |old(env.observed)| + budget
      ensures AsksFor(env.observed[|old(env.observed)|..], pageSize)
    {
      var turns := budget;
      while 0 < turns
        invariant At(env, i, Polling) && Continues(env, i)
        invariant old(env.observed) <= env.observed
        invariant |env.observed| + turns == |old(env.observed)| + budget
        invariant AsksFor(env.observed[|old(env.observed)|..], pageSize)
        decreases turns
      {
        var done;
        done, stopped, turns := Turn(env, i, turns, old(env.observed));
        if !done {
          return stopped;
        }
      }
      return false;
    }

    // One turn of the outer loop. It ends early when it is stopped, or not observed any more.
    method Turn(env: Environment, i: nat, budget: nat, ghost before: seq<Observation>)
      returns (done: bool, stopped: bool, left: nat)
      requires At(env, i, Polling) && 0 < budget
      requires before <= env.observed && AsksFor(env.observed[|before|..], pageSize)
      modifies this, env
      ensures env.Valid() && Continues(env, i)
      ensures env.world.runs[i].cursor == lastLogID
      ensures stopped <==> env.world.runs[i].phase.Stopped?
      ensures Answers(env.Steps(i), env.observed, i, stopped)
      ensures before <= env.observed && AsksFor(env.observed[|before|..], pageSize)
      ensures !stopped ==> |env.observed| + left == |old(env.observed)| + budget
      ensures if done then At(env, i, Polling) && left < budget else stopped || left == 0
    {
      var page;
      ghost var listed;
      stopped, page, listed := Poll(env, i);
      AsksForMore(before, old(env.observed), env.observed, pageSize);
      left := budget - 1;
      done := !stopped;
      if page != [] {
        ghost var polled := env.observed;
        done, stopped, left := Deliver(env, i, page, left);
        AsksForMore(before, polled, env.observed, pageSize);
      }
    }

    // One turn of the outer select: a stop, or a page to push (empty for none).
    method Poll(env: Environment, i: nat)
      returns (stopped: bool, page: seq<Log>, ghost listed: Option<seq<Log>>)
      requires At(env, i, Polling)
      modifies env
      ensures Continues(env, i)
      ensures At(env, i, if stopped then Stopped else if page == [] then Polling else Pushing(page))
      ensures stopped ==> page == []
      ensures (stopped && env.observed == old(env.observed)) || Asked(env, old(env.observed), stopped, page, listed)
    {
      Wait(env, i, Polling);
      var stop := *;
      if stop {
        TakeStop(env, i, Polling);
        return true, [], None;
      }
      stopped, page, listed := Ask(env, i);
    }

    // It has asked for the page above its cursor, and has in hand what it was given; only
    // after an error may it be stopped.
    ghost predicate Asked(
        env: Environment, before: seq<Observation>, stopped: bool, page: seq<Log>, listed: Option<seq<Log>>)
      reads this, env
    {
      && env.observed == before + [Listed(lastLogID, pageSize, listed)]
      && page == (if listed.Some? then listed.value else [])
      && (listed.Some? ==> !stopped && FirstPage(env.world.logs, lastLogID, pageSize, page))
    }

    method Ask(env: Environment, i: nat) returns (stopped: bool, page: seq<Log>, ghost listed: Option<seq<Log>>)
      requires At(env, i, Polling)
      modifies env
      ensures Continues(env, i)
      ensures At(env, i, if stopped then Stopped else if page == [] then Polling else Pushing(page))
      ensures stopped ==> page == []
      ensures Asked(env, old(env.observed), stopped, page, listed)
    {
      ghost var before := env.observed;
      var answer := env.ListLogs(lastLogID, pageSize);
      listed := answer;
      RespondOneMore(before, Listed(lastLogID, pageSize, listed), i);
      if answer.None? {
        page := [];
        stopped := AwaitPoll(env, i, before);
        return;
      }
      stopped, page := false, answer.value;
      FirstPageIsPage(env.world.logs, lastLogID, pageSize, page);
      TakePage(env, i, page);
    }

    // The wait after a failed fetch.
    method AwaitPoll(env: Environment, i: nat, ghost before: seq<Observation>) returns (stopped: bool)
      requires In(env, i, Polling)
      requires env.observed == before + [Listed(lastLogID, pageSize, None)]
      requires env.Steps(i) == Responses(before, i)
      modifies env
      ensures At(env, i, if stopped then Stopped else Polling) && Continues(env, i)
      ensures env.observed == old(env.observed)
    {
      RespondOneMore(before, Listed(lastLogID, pageSize, None), i);
      assert env.observed[..|before|] == before;
      Wait(env, i, Polling);
      stopped := *;
      if stopped {
        TakeStop(env, i, Polling);
      } else {
        TakePage(env, i, []);
      }
    }

    // Sends a page to the exporter and its cursor to the storing goroutine.
    method Deliver(env: Environment, i: nat, page: seq<Log>, budget: nat)
      returns (done: bool, stopped: bool, left: nat)
      requires At(env, i, Pushing(page))
      modifies this, env
      ensures env.Valid() && Continues(env, i)
      ensures env.world.runs[i].cursor == lastLogID
      ensures stopped <==> env.world.runs[i].phase.Stopped?
      ensures Answers(env.Steps(i), env.observed, i, stopped)
      ensures old(env.observed) <= env.observed
      ensures forall k :: |old(env.observed)| <= k < |env.observed| ==> !env.observed[k].Listed?
      ensures !stopped ==> |env.observed| + left == |old(env.observed)| + budget
      ensures left <= budget
      ensures if done then At(env, i, Polling) else stopped || left == 0
    {
      var pushed;
      pushed, stopped, left := Push(env, i, page, budget);
      done := false;
      if pushed {
        done, left := PublishCursor(env, i, Last(page), left);
      }
    }

    // The inner loop: send the page until Accept takes it, or a stop arrives.
    method Push(env: Environment, i: nat, page: seq<Log>, budget: nat) returns (pushed: bool, stopped: bool, left: nat)
      requires At(env, i, Pushing(page))
      modifies this, env
      ensures Continues(env, i)
      ensures At(env, i, if pushed then Publishing(Last(page)) else if stopped then Stopped else Pushing(page))
      ensures !(pushed && stopped)
      ensures lastLogID == if pushed then Some(Last(page)) else old(lastLogID)
      // It looks for the result of Accept in every turn, and ends with the first success.
      ensures old(env.observed) <= env.observed
      ensures forall k :: |old(env.observed)| <= k < |env.observed| ==>
                && env.observed[k].Looked?
                && (env.observed[k].Delivered() <==> pushed && k == |env.observed| - 1)
      ensures pushed ==> |old(env.observed)| < |env.observed|
      ensures !stopped ==> |env.observed| + left == |old(env.observed)| + budget
      ensures left <= budget
      ensures !pushed && !stopped ==> left == 0
    {
      left := budget;
      while 0 < left
        invariant At(env, i, Pushing(page)) && lastLogID == old(lastLogID) && Continues(env, i)
        invariant old(env.observed) <= env.observed && left <= budget
        invariant forall k :: |old(env.observed)| <= k < |env.observed| ==>
                    env.observed[k].Looked? && !env.observed[k].Delivered()
        invariant |env.observed| + left == |old(env.observed)| + budget
      {
        left := left - 1;
        pushed, stopped := PushOnce(env, i, page);
        if pushed || stopped {
          return;
        }
      }
      return false, false, left;
    }

    // One turn of it.
    method PushOnce(env: Environment, i: nat, page: seq<Log>) returns (pushed: bool, stopped: bool)
      requires At(env, i, Pushing(page))
      modifies this, env
      ensures Continues(env, i)
      ensures At(env, i, if pushed then Publishing(Last(page)) else if stopped then Stopped else Pushing(page))
      ensures !(pushed && stopped)
      ensures lastLogID == if pushed then Some(Last(page)) else old(lastLogID)
      ensures || (stopped && env.observed == old(env.observed))
              || exists call: Call ::
                   && env.observed == old(env.observed) + [Looked(call)]
                   && (pushed <==> call.Returned? && call.ok)
    {
      pushed := false;
      Wait(env, i, Pushing(page));
      stopped := *;
      if stopped {
        TakeStop(env, i, Pushing(page));
        return;
      }
      ghost var before := env.observed;
      var call := env.Look(i);
      RespondOneMore(before, Looked(call), i);
      if call.Returned? {
        pushed := TakeResult(env, i, page);
        if !pushed {
          stopped := AwaitRetry(env, i, page, before, call);
        }
      }
    }

    // The wait after a failed Accept.
    method AwaitRetry(env: Environment, i: nat, page: seq<Log>, ghost before: seq<Observation>, ghost call: Call)
      returns (stopped: bool)
      requires In(env, i, RetryWait(page)) && page != []
      requires call.Returned? && !call.ok && env.observed == before + [Looked(call)]
      requires env.Steps(i) == Responses(before, i) + [Receive(i)]
      modifies env
      ensures At(env, i, if stopped then Stopped else Pushing(page)) && Continues(env, i)
      ensures env.observed == old(env.observed)
    {
      ghost var steps := Responses(before, i);
      RespondOneMore(before, Looked(call), i);
      assert env.observed[..|before|] == before;
      Wait(env, i, RetryWait(page));
      stopped := *;
      if stopped {
        TakeStop(env, i, RetryWait(page));
        assert steps + [Receive(i)] + [Stop(i)] == steps + [Receive(i), Stop(i)];
      } else {
        TryAgain(env, i, page);
        assert steps + [Receive(i)] + [Retry(i)] == steps + [Receive(i), Retry(i)];
      }
    }

    // Blocks on ingestedLogs until the storing goroutine is ready to receive.
    method PublishCursor(env: Environment, i: nat, id: nat, budget: nat) returns (published: bool, left: nat)
      requires At(env, i, Publishing(id))
      modifies env
      ensures At(env, i, if published then Polling else Publishing(id)) && Continues(env, i)
      ensures old(env.observed) <= env.observed
      ensures forall k :: |old(env.observed)| <= k < |env.observed| ==>
                env.observed[k] == Sent(published && k == |env.observed| - 1)
      ensures |env.observed| + left == |old(env.observed)| + budget
      ensures !published ==> left == 0
      ensures published ==> |old(env.observed)| < |env.observed|
    {
      left := budget;
      while 0 < left
        invariant At(env, i, Publishing(id)) && Continues(env, i)
        invariant old(env.observed) <= env.observed
        invariant forall k :: |old(env.observed)| <= k < |env.observed| ==> env.observed[k] == Sent(false)
        invariant |env.observed| + left == |old(env.observed)| + budget
      {
        left := left - 1;
        published := PublishOnce(env, i, id);
        if published {
          return;
        }
      }
      return false, left;
    }

    method PublishOnce(env: Environment, i: nat, id: nat) returns (published: bool)
      requires At(env, i, Publishing(id))
      modifies env
      ensures At(env, i, if published then Polling else Publishing(id)) && Continues(env, i)
      ensures env.observed == old(env.observed) + [Sent(published)]
    {
      Wait(env, i, Publishing(id));
      ghost var before := env.observed;
      published := env.TrySend(i);
      RespondOneMore(before, Sent(published), i);
      if published {
        SendCursor(env, i, id);
      }
    }
  }
}
