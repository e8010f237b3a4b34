// `Manager`: the maps of running pipelines and shared drivers, and the operations
// that reconcile them with storage. Every operation runs under the mutex, so each
// method is one atomic transition. What storage, the validator and the driver factory do
// is a parameter of it; how a cancelled Shutdown races with the loop is an arbitrary choice.
module Managers {
  import opened Wrappers

  datatype Pipeline = Pipeline(id: string, ledger: string, exporterID: string)

  // A driver facade. Only its identity matters here.
  class Driver {
    const exporterID: string

    constructor (exporterID: string)
      ensures this.exporterID == exporterID
    {
      this.exporterID := exporterID;
    }
  }

  class Handler {
    const pipeline: Pipeline
    const exporter: Driver

    constructor (pipeline: Pipeline, exporter: Driver)
      ensures this.pipeline == pipeline && this.exporter == exporter
    {
      this.pipeline := pipeline;
      this.exporter := exporter;
    }
  }

  // The goroutine of a handler's Run, and its stopChannel of capacity one: `live`
  // until it takes a stop request, `pending` while the channel holds one.
  datatype Loop = Loop(live: bool, pending: bool) {
    // A Shutdown never returns nil again: its request is queued behind a loop that
    // ends on the request in front, or has already ended.
    predicate Stuck() {
      pending || !live
    }
  }

  datatype Failure =
    | AlreadyStarted
    | PipelineNotFound
    | ExporterFailed // the driver factory
    | OpenLedgerFailed
    | ShutdownFailed
    | StorageFailed
    | InvalidConfiguration

  // The successes and failures that one operation meets: validating a configuration,
  // reading and writing rows, listing the enabled pipelines, creating a driver for an
  // exporter id, opening the ledger for a pipeline id, and whether the context is cancelled
  // while a pipeline is shut down. An operation makes each of these calls at most once.
  datatype Outcomes = Outcomes(
    valid: bool, stored: bool, listed: bool, creates: string -> bool, opens: string -> bool,
    cancels: string -> bool)
  {
    predicate Starts(p: Pipeline) {
      creates(p.exporterID) && opens(p.id)
    }

    predicate AllSucceed(enabled: seq<Pipeline>) {
      valid && stored && listed && forall p :: p in enabled ==> Starts(p)
    }
  }

  // The operations that clients and the synchronization loop may call, and the one
  // transition that happens outside the mutex.
  datatype Operation =
    | Start(pipeline: Pipeline)
    | StopOne(id: string)
    | Synchronize(enabled: seq<Pipeline>)
    | Update(id: string, enabled: seq<Pipeline>)
    | DropExporter(id: string)
    | DropPipeline(id: string)
    | ResetOne(reset: Pipeline)
    | StopAll
    | LoopEnds(id: string)

  type Pipelines = map<string, Handler>
  type Drivers = map<string, Driver>
  type Loops = map<Handler, Loop>

  function Ids(pipelines: seq<Pipeline>): set<string> {
    set p <- pipelines :: p.id
  }

  lemma {:induction false} IdsSnoc(pipelines: seq<Pipeline>, i: nat)
    requires i < |pipelines|
    ensures Ids(pipelines[..i + 1]) == Ids(pipelines[..i]) + {pipelines[i].id}
    ensures pipelines[i].id in Ids(pipelines)
  {
    assert pipelines[..i + 1] == pipelines[..i] + [pipelines[i]];
  }

  lemma {:induction false} IdsMember(pipelines: seq<Pipeline>, i: nat)
    requires i < |pipelines|
    ensures pipelines[i].id in Ids(pipelines)
  {
  }

  // Handlers registered before and after are the same.
  ghost predicate Kept(before: Pipelines, after: Pipelines) {
    forall id :: id in before.Keys * after.Keys ==> after[id] == before[id]
  }

  // Newly registered handlers carry the listed rows.
  ghost predicate FromList(before: Pipelines, after: Pipelines, enabled: seq<Pipeline>) {
    forall id :: id in after.Keys - before.Keys ==> after[id].pipeline in enabled
  }

  ghost function RunningOn(pipelines: Pipelines, exporterID: string): set<string> {
    set id <- pipelines | pipelines[id].pipeline.exporterID == exporterID
  }

  // The exporter ids that the registered pipelines use.
  ghost function UsedBy(pipelines: Pipelines): set<string> {
    set id <- pipelines :: pipelines[id].pipeline.exporterID
  }

  lemma {:induction false} FromListMore(
      before: Pipelines, some: Pipelines, more: Pipelines, enabled: seq<Pipeline>, i: nat)
    requires i < |enabled| && FromList(before, some, enabled)
    requires some.Items <= more.Items && more.Keys == some.Keys + {enabled[i].id}
    requires enabled[i].id !in some ==> more[enabled[i].id].pipeline == enabled[i]
    ensures FromList(before, more, enabled)
  {
    SameItems(some, more);
  }

  lemma {:induction false} Synchronized(before: Pipelines, started: Pipelines, after: Pipelines, enabled: seq<Pipeline>)
    requires before.Items <= started.Items && started.Keys == before.Keys + Ids(enabled)
    requires after.Items <= started.Items && started.Keys * Ids(enabled) <= after.Keys
    requires FromList(before, started, enabled)
    ensures before.Keys * Ids(enabled) <= after.Keys && Ids(enabled) <= after.Keys
    ensures Kept(before, after) && FromList(before, after, enabled)
    ensures after.Keys <= Ids(enabled) ==> after.Keys == Ids(enabled)
  {
    SameItems(before, started);
    SameItems(after, started);
  }

  lemma {:induction false} KeptDrivers(before: Drivers, known: Drivers, after: Drivers)
    requires before.Items <= known.Items && after.Items <= known.Items
    ensures forall e :: e in before.Keys * after.Keys ==> after[e] == before[e]
  {
    SameItems(before, known);
    SameItems(after, known);
  }

  // Whatever is registered was before, or carries a listed row.
  ghost predicate RanOrListed(before: Pipelines, after: Pipelines, enabled: seq<Pipeline>) {
    forall p :: p in after ==> (p in before && after[p] == before[p]) || after[p].pipeline in enabled
  }

  lemma {:induction false} StoppedThenListed(
      before: Pipelines, stopped: Pipelines, after: Pipelines, enabled: seq<Pipeline>)
    requires stopped.Items <= before.Items && Kept(stopped, after) && FromList(stopped, after, enabled)
    ensures RanOrListed(before, after, enabled)
  {
    SameItems(stopped, before);
    forall p | p in after
      ensures (p in before && after[p] == before[p]) || after[p].pipeline in enabled
    {
      if p in stopped {
        assert p in stopped.Keys * after.Keys;
      } else {
        assert p in after.Keys - stopped.Keys;
      }
    }
  }

  lemma {:induction false} OnlyStopped(before: Pipelines, after: Pipelines, enabled: seq<Pipeline>)
    requires after.Items <= before.Items
    ensures RanOrListed(before, after, enabled)
  {
    SameItems(after, before);
  }

  lemma {:induction false} UsedByMore(pipelines: Pipelines, h: Handler)
    requires h.pipeline.id !in pipelines
    ensures UsedBy(pipelines[h.pipeline.id := h]) == UsedBy(pipelines) + {h.pipeline.exporterID}
  {
    var more := pipelines[h.pipeline.id := h];
    assert more[h.pipeline.id] == h;
    forall e | e in UsedBy(pipelines)
      ensures e in UsedBy(more)
    {
      var id :| id in pipelines && pipelines[id].pipeline.exporterID == e;
      assert more[id] == pipelines[id];
    }
  }

  lemma {:induction false} UsedByLess(pipelines: Pipelines, id: string)
    requires id in pipelines
    ensures UsedBy(pipelines) == UsedBy(pipelines - {id}) + {pipelines[id].pipeline.exporterID}
  {
    var less := pipelines - {id};
    forall e | e in UsedBy(pipelines)
      ensures e in UsedBy(less) + {pipelines[id].pipeline.exporterID}
    {
      var k :| k in pipelines && pipelines[k].pipeline.exporterID == e;
      assert k != id ==> less[k] == pipelines[k];
    }
    forall e | e in UsedBy(less)
      ensures e in UsedBy(pipelines)
    {
      var k :| k in less && less[k].pipeline.exporterID == e;
      assert pipelines[k] == less[k];
    }
  }

  // Every handler is registered under its own pipeline id and runs on the driver
  // stored under its exporter id; a driver is stored under the id it was made for, so
  // distinct exporter ids have distinct drivers.
  ghost predicate Consistent(pipelines: Pipelines, drivers: Drivers) {
    && (forall id :: id in pipelines ==>
          var h := pipelines[id];
          && h.pipeline.id == id
          && h.pipeline.exporterID in drivers
          && drivers[h.pipeline.exporterID] == h.exporter)
    && (forall e :: e in drivers ==> drivers[e].exporterID == e)
  }

  lemma {:induction false} DistinctDrivers(pipelines: Pipelines, drivers: Drivers, a: string, b: string)
    requires Consistent(pipelines, drivers) && a in drivers && b in drivers
    ensures drivers[a] == drivers[b] ==> a == b
  {
  }

  // The driver keys are the ids in use exactly when no driver is an orphan.
  lemma {:induction false} TightIff(pipelines: Pipelines, drivers: Drivers)
    requires Consistent(pipelines, drivers)
    ensures drivers.Keys - UsedBy(pipelines) == {} <==> drivers.Keys == UsedBy(pipelines)
  {
    if drivers.Keys - UsedBy(pipelines) == {} {
      forall e | e in drivers.Keys
        ensures e in UsedBy(pipelines)
      {
        assert e !in drivers.Keys - UsedBy(pipelines);
      }
    }
  }

  lemma {:induction false} OrphanedBy(pipelines: Pipelines, before: Drivers, after: Drivers, e: string)
    requires Consistent(pipelines, before) && after.Keys == before.Keys + {e}
    ensures after.Keys - UsedBy(pipelines) == before.Keys - UsedBy(pipelines) + ({e} - before.Keys)
  {
  }

  lemma {:induction false} OwnId(pipelines: Pipelines, drivers: Drivers, d: Driver)
    requires forall e :: e in drivers ==> drivers[e].exporterID == e
    ensures d in drivers.Values ==> d.exporterID in drivers && drivers[d.exporterID] == d
  {
  }

  // A live loop belongs to the handler registered for its pipeline, so there is at
  // most one per pipeline.
  ghost predicate LoopsRegistered(pipelines: Pipelines, loops: Loops) {
    && (forall id :: id in pipelines ==> pipelines[id] in loops)
    && (forall h :: h in loops && loops[h].live ==> h.pipeline.id in pipelines && pipelines[h.pipeline.id] == h)
  }

  lemma {:induction false} AtMostOneLive(pipelines: Pipelines, loops: Loops, a: Handler, b: Handler)
    requires LoopsRegistered(pipelines, loops)
    requires a in loops && b in loops && loops[a].live && loops[b].live
    ensures a.pipeline.id == b.pipeline.id ==> a == b
  {
  }

  // A registered pipeline whose shutdown succeeds.
  ghost predicate CanStop(pipelines: Pipelines, loops: Loops, id: string, o: Outcomes) {
    id in pipelines && pipelines[id] in loops && !loops[pipelines[id]].Stuck() && !o.cancels(id)
  }

  ghost predicate CanStopAll(pipelines: Pipelines, loops: Loops, ids: set<string>, o: Outcomes) {
    forall id :: id in ids ==> CanStop(pipelines, loops, id, o)
  }

  lemma {:induction false} CanStillStop(
      before: Pipelines, loops: Loops, pipelines: Pipelines, now: Loops, id: string, o: Outcomes)
    requires Kept(before, pipelines) && id in before && id in pipelines && before[id] in now
    requires before[id] in loops ==> now[before[id]] == loops[before[id]]
    ensures CanStop(before, loops, id, o) ==> CanStop(pipelines, now, id, o)
  {
    assert id in before.Keys * pipelines.Keys;
  }

  // The registered handlers whose loop is stuck.
  ghost function StuckIn(pipelines: Pipelines, loops: Loops): set<Handler> {
    set id <- pipelines | pipelines[id] in loops && loops[pipelines[id]].Stuck() :: pipelines[id]
  }

  lemma {:induction false} StuckInMore(pipelines: Pipelines, loops: Loops, h: Handler)
    requires h !in loops && h.pipeline.id !in pipelines
    ensures StuckIn(pipelines, loops) <= StuckIn(pipelines[h.pipeline.id := h], loops[h := Loop(true, false)])
  {
    var more := pipelines[h.pipeline.id := h];
    forall x | x in StuckIn(pipelines, loops)
      ensures x in StuckIn(more, loops[h := Loop(true, false)])
    {
      var id :| id in pipelines && pipelines[id] == x;
      assert more[id] == x;
    }
  }

  lemma {:induction false} StuckInLess(pipelines: Pipelines, loops: Loops, id: string, l: Loop)
    requires id in pipelines && pipelines[id] in loops && !loops[pipelines[id]].Stuck()
    ensures StuckIn(pipelines, loops) <= StuckIn(pipelines - {id}, loops[pipelines[id] := l])
  {
    var less := pipelines - {id};
    forall x | x in StuckIn(pipelines, loops)
      ensures x in StuckIn(less, loops[pipelines[id] := l])
    {
      var k :| k in pipelines && pipelines[k] == x && loops[x].Stuck();
      assert less[k] == x;
    }
  }

  lemma {:induction false} StuckInSame(pipelines: Pipelines, loops: Loops, h: Handler, l: Loop)
    requires h in loops && (loops[h].Stuck() ==> l.Stuck())
    ensures StuckIn(pipelines, loops) <= StuckIn(pipelines, loops[h := l])
  {
    forall x | x in StuckIn(pipelines, loops)
      ensures x in StuckIn(pipelines, loops[h := l])
    {
      var k :| k in pipelines && pipelines[k] == x && loops[x].Stuck();
    }
  }

  lemma {:induction false} SameItems<K, T>(m: map<K, T>, more: map<K, T>)
    requires m.Items <= more.Items
    ensures forall k :: k in m.Keys ==> k in more.Keys && m[k] == more[k]
  {
    forall k | k in m.Keys
      ensures k in more.Keys && m[k] == more[k]
    {
      assert (k, m[k]) in m.Items;
    }
  }

  lemma {:induction false} NoneRunningOn(pipelines: Pipelines, more: Pipelines, exporterID: string)
    requires pipelines.Items <= more.Items && pipelines.Keys * RunningOn(more, exporterID) == {}
    ensures exporterID !in UsedBy(pipelines)
  {
    SameItems(pipelines, more);
    forall id | id in pipelines
      ensures pipelines[id].pipeline.exporterID != exporterID
    {
      assert id in pipelines.Keys && id !in pipelines.Keys * RunningOn(more, exporterID);
    }
  }

  lemma {:induction false} ItemsLess<T>(m: map<string, T>, k: string)
    ensures (m - {k}).Items <= m.Items && (m - {k}).Keys == m.Keys - {k}
  {
  }

  lemma {:induction false} ItemsMore<K, T>(m: map<K, T>, k: K, v: T)
    requires k in m ==> m[k] == v
    ensures m.Items <= m[k := v].Items
    ensures m[k := v].Keys == m.Keys + {k}
  {
    forall item | item in m.Items
      ensures item in m[k := v].Items
    {
    }
  }

  // A manager's state at one moment.
  datatype State = State(
    pipelines: Pipelines, drivers: Drivers, loops: Loops, made: set<Driver>, stuck: set<Handler>, orphans: set<string>)

  // A pipeline whose loop is stuck stays registered, and stuck; and a driver that was
  // dropped never comes back.
  ghost predicate Follows(before: State, after: State) {
    && before.stuck <= after.stuck
    && before.made <= after.made
    && after.drivers.Values * before.made <= before.drivers.Values
  }

  lemma {:induction false} FollowsTwice(a: State, b: State, c: State)
    requires Follows(a, b) && Follows(b, c)
    ensures Follows(a, c)
  {
  }

  // From `was` to `now`, the first i listed pipelines have been started.
  ghost predicate Starting(was: State, now: State, enabled: seq<Pipeline>, i: nat)
    requires i <= |enabled|
  {
    && Follows(was, now)
    && was.pipelines.Items <= now.pipelines.Items && was.drivers.Items <= now.drivers.Items
    && was.loops.Items <= now.loops.Items
    && now.pipelines.Keys == was.pipelines.Keys + Ids(enabled[..i])
    && FromList(was.pipelines, now.pipelines, enabled)
    && (Ids(enabled) <= was.pipelines.Keys ==>
          now.pipelines == was.pipelines && now.drivers == was.drivers && now.loops == was.loops)
  }

  lemma {:induction false} StartedOneMore(was: State, now: State, next: State, enabled: seq<Pipeline>, i: nat)
    requires i < |enabled| && Starting(was, now, enabled, i) && Follows(was, next)
    requires now.pipelines.Items <= next.pipelines.Items && now.drivers.Items <= next.drivers.Items
    requires now.loops.Items <= next.loops.Items
    requires next.pipelines.Keys == now.pipelines.Keys + {enabled[i].id}
    requires enabled[i].id !in now.pipelines ==> next.pipelines[enabled[i].id].pipeline == enabled[i]
    requires enabled[i].id in now.pipelines ==>
               next.pipelines == now.pipelines && next.drivers == now.drivers && next.loops == now.loops
    ensures Starting(was, next, enabled, i + 1)
  {
    IdsSnoc(enabled, i);
    IdsMember(enabled, i);
    FromListMore(was.pipelines, now.pipelines, next.pipelines, enabled, i);
  }

  // A failed start may have left a driver.
  lemma {:induction false} NotStarted(was: State, now: State, next: State, enabled: seq<Pipeline>, i: nat)
    requires i < |enabled| && Starting(was, now, enabled, i) && Follows(was, next)
    requires next.pipelines == now.pipelines && now.drivers.Items <= next.drivers.Items && next.loops == now.loops
    requires enabled[i].id !in now.pipelines
    ensures Starting(was, next, enabled, i) && !(Ids(enabled) <= was.pipelines.Keys)
  {
    IdsMember(enabled, i);
  }

  // What is disabled was registered before the first loop, with the same loop.
  lemma {:induction false} DisabledCanStop(was: State, started: State, enabled: seq<Pipeline>, o: Outcomes)
    requires was.pipelines.Items <= started.pipelines.Items && was.loops.Items <= started.loops.Items
    requires started.pipelines.Keys == was.pipelines.Keys + Ids(enabled)
    ensures CanStopAll(was.pipelines, was.loops, was.pipelines.Keys - Ids(enabled), o) ==>
              CanStopAll(started.pipelines, started.loops, started.pipelines.Keys - Ids(enabled), o)
  {
    SameItems(was.pipelines, started.pipelines);
    SameItems(was.loops, started.loops);
    assert started.pipelines.Keys - Ids(enabled) == was.pipelines.Keys - Ids(enabled);
    forall id | id in was.pipelines.Keys
      ensures CanStop(was.pipelines, was.loops, id, o) ==> CanStop(started.pipelines, started.loops, id, o)
    {
    }
  }

  class Manager {
    var pipelines: Pipelines
    var drivers: Drivers
    var loops: Loops            // of every handler ever started
    ghost var made: set<Driver> // every driver ever created

    ghost predicate Valid()
      reads this
    {
      && Consistent(pipelines, drivers)
      && drivers.Values <= made
      && LoopsRegistered(pipelines, loops)
    }

    // The driver keys are exactly the exporter ids in use.
    ghost predicate Tight()
      reads this
    {
      drivers.Keys == UsedBy(pipelines)
    }

    // Exporter ids with a driver that no pipeline uses.
    ghost function Orphans(): set<string>
      reads this
    {
      drivers.Keys - UsedBy(pipelines)
    }

    ghost function Snapshot(): State
      reads this
    {
      State(pipelines, drivers, loops, made, StuckIn(pipelines, loops), Orphans())
    }

    twostate predicate Evolves()
      reads this
    {
      Follows(old(Snapshot()), Snapshot())
    }

    constructor ()
      ensures Valid() && Tight() && pipelines == map[] && drivers == map[] && loops == map[] && made == {}
    {
      pipelines, drivers, loops, made := map[], map[], map[], {};
    }

    method InitExporter(exporterID: string, created: bool) returns (ok: bool)
      requires Valid()
      modifies this`drivers, this`made
      ensures Valid() && Evolves()
      ensures old(drivers).Items <= drivers.Items
      ensures drivers.Keys == old(drivers).Keys + if ok then {exporterID} else {}
      ensures ok <==> exporterID in old(drivers) || created
      ensures !ok || exporterID in old(drivers) ==> drivers == old(drivers) && made == old(made)
      ensures ok ==> exporterID in drivers
      ensures ok && exporterID !in old(drivers) ==>
                drivers[exporterID] !in old(made) && drivers == old(drivers)[exporterID := drivers[exporterID]]
    {
      if exporterID in drivers {
        return true;
      }
      if !created {
        return false;
      }
      var driver := new Driver(exporterID);
      ItemsMore(drivers, exporterID, driver);
      drivers := drivers[exporterID := driver];
      made := made + {driver};
      return true;
    }

    method Launch(pipeline: Pipeline)
      requires Valid() && pipeline.id !in pipelines && pipeline.exporterID in drivers
      modifies this`pipelines, this`loops
      ensures Valid() && Evolves()
      ensures pipeline.id in pipelines
      ensures var h := pipelines[pipeline.id];
              && fresh(h) && h.pipeline == pipeline && h.exporter == drivers[pipeline.exporterID]
              && pipelines == old(pipelines)[pipeline.id := h]
              && loops == old(loops)[h := Loop(true, false)]
      ensures UsedBy(pipelines) == old(UsedBy(pipelines)) + {pipeline.exporterID}
      ensures old(pipelines).Items <= pipelines.Items && pipelines.Keys == old(pipelines).Keys + {pipeline.id}
      ensures old(loops).Items <= loops.Items
    {
      var handler := new Handler(pipeline, drivers[pipeline.exporterID]);
      StuckInMore(pipelines, loops, handler);
      ItemsMore(pipelines, pipeline.id, handler);
      ItemsMore(loops, handler, Loop(true, false));
      UsedByMore(pipelines, handler);
      pipelines := pipelines[pipeline.id := handler];
      loops := loops[handler := Loop(true, false)];
    }

    // A failing OpenLedger leaves the driver in place, without a pipeline if it was new.
    method StartPipeline(pipeline: Pipeline, o: Outcomes) returns (error: Option<Failure>)
      requires Valid()
      modifies this
      ensures Valid() && Evolves()
      ensures error == if pipeline.id in old(pipelines) then Some(AlreadyStarted)
                       else if pipeline.exporterID !in old(drivers) && !o.creates(pipeline.exporterID)
                       then Some(ExporterFailed)
                       else if !o.opens(pipeline.id) then Some(OpenLedgerFailed)
                       else None
      ensures old(pipelines).Items <= pipelines.Items && old(drivers).Items <= drivers.Items
      ensures old(loops).Items <= loops.Items
      ensures error.Some? ==> pipelines == old(pipelines) && loops == old(loops)
      ensures error.Some? && error != Some(OpenLedgerFailed) ==> drivers == old(drivers)
      ensures error.None? ==>
                && pipeline.id in pipelines
                && var h := pipelines[pipeline.id];
                   && fresh(h) && h.pipeline == pipeline
                   && pipelines == old(pipelines)[pipeline.id := h]
                   && loops == old(loops)[h := Loop(true, false)]
                   && pipelines.Keys == old(pipelines).Keys + {pipeline.id}
      ensures error.None? || error == Some(OpenLedgerFailed) ==>
                && pipeline.exporterID in drivers
                && drivers == old(drivers)[pipeline.exporterID := drivers[pipeline.exporterID]]
                && (if pipeline.exporterID in old(drivers) then drivers == old(drivers)
                    else drivers[pipeline.exporterID] !in old(made))
      ensures error == Some(OpenLedgerFailed) ==>
                Orphans() == old(Orphans()) + ({pipeline.exporterID} - old(drivers).Keys)
      ensures old(Tight()) && error != Some(OpenLedgerFailed) ==> Tight()
    {
      if pipeline.id in pipelines {
        return Some(AlreadyStarted);
      }
      var ok := InitExporter(pipeline.exporterID, o.creates(pipeline.exporterID));
      if !ok {
        return Some(ExporterFailed);
      }
      if !o.opens(pipeline.id) {
        OrphanedBy(pipelines, old(drivers), drivers, pipeline.exporterID);
        return Some(OpenLedgerFailed);
      }
      Launch(pipeline);
      return None;
    }

    // Nil is returned only once the loop has closed the channel of this request, and always
    // then, unless the context is cancelled. A Shutdown of a stuck loop ends with its context.
    method Shutdown(handler: Handler, cancelled: bool) returns (ok: bool)
      requires Valid() && handler in pipelines.Values
      modifies this`loops
      ensures Valid() && Evolves()
      ensures handler in old(loops) && handler in loops && loops == old(loops)[handler := loops[handler]]
      ensures ok ==> old(loops)[handler] == Loop(true, false) && loops[handler] == Loop(false, false)
      ensures !cancelled && old(loops)[handler] == Loop(true, false) ==> ok
      ensures old(loops)[handler].Stuck() ==> loops[handler] in {old(loops)[handler], Loop(false, true)}
    {
      var l := loops[handler];
      var beforeSend, taken, answered := *, *, *;
      if (cancelled && beforeSend) || (l.pending && !l.live) {
        return false;
      }
      if l.Stuck() {
        // A loop that still runs takes the request in front; this one stays queued.
        StuckInSame(pipelines, loops, handler, Loop(false, true));
        loops := loops[handler := Loop(false, true)];
        return false;
      }
      StuckInSame(pipelines, loops, handler, Loop(true, true));
      StuckInSame(pipelines, loops, handler, Loop(false, false));
      if cancelled && !taken {
        loops := loops[handler := Loop(true, true)];
        return false;
      }
      loops := loops[handler := Loop(false, false)];
      return !cancelled || answered;
    }

    // Deletes the entry that holds this driver, whatever its Stop returned.
    method StopDriver(driver: Driver)
      requires Consistent(pipelines, drivers)
      modifies this`drivers
      ensures forall e :: e in old(drivers) && old(drivers)[e] == driver ==> drivers == old(drivers) - {e}
      ensures driver !in old(drivers).Values ==> drivers == old(drivers)
    {
      var names := drivers.Keys;
      while names != {}
        invariant drivers == old(drivers) && names <= drivers.Keys
        invariant forall e :: e in drivers && e !in names ==> drivers[e] != driver
        decreases names
      {
        var name :| name in names;
        if drivers[name] == driver {
          drivers := drivers - {name};
          return;
        }
        names := names - {name};
      }
    }

    method StopExporterIfNeeded(handler: Handler)
      requires Consistent(pipelines, drivers)
      requires handler.pipeline.exporterID in drivers && drivers[handler.pipeline.exporterID] == handler.exporter
      modifies this`drivers
      ensures Consistent(pipelines, drivers)
      ensures drivers == if handler.pipeline.exporterID in UsedBy(pipelines) then old(drivers)
                         else old(drivers) - {handler.pipeline.exporterID}
    {
      var ids := pipelines.Keys;
      while ids != {}
        invariant ids <= pipelines.Keys && drivers == old(drivers)
        invariant forall id :: id in pipelines && id !in ids ==> pipelines[id].exporter != handler.exporter
        decreases ids
      {
        var id :| id in ids;
        if pipelines[id].exporter == handler.exporter {
          return;
        }
        ids := ids - {id};
      }
      StopDriver(handler.exporter);
    }

    method StopPipeline(id: string, o: Outcomes) returns (error: Option<Failure>)
      requires Valid()
      modifies this
      ensures Valid() && Evolves()
      ensures error == Some(PipelineNotFound) <==> id !in old(pipelines)
      ensures error.Some? ==> error.value in {PipelineNotFound, ShutdownFailed}
      ensures error.Some? ==> pipelines == old(pipelines) && drivers == old(drivers)
      ensures error.None? ==>
                && id in old(pipelines) && old(pipelines)[id] in old(loops)
                && !old(loops)[old(pipelines)[id]].Stuck()
                && pipelines == old(pipelines) - {id}
                && var e := old(pipelines)[id].pipeline.exporterID;
                   drivers == if e in UsedBy(pipelines) then old(drivers) else old(drivers) - {e}
      ensures pipelines.Items <= old(pipelines).Items && drivers.Items <= old(drivers).Items
      ensures error.None? ==> pipelines.Keys == old(pipelines).Keys - {id}
      ensures Orphans() == old(Orphans()) && loops.Keys == old(loops).Keys && made == old(made)
      ensures CanStop(old(pipelines), old(loops), id, o) ==> error.None?
      ensures forall h :: h in old(loops) && h.pipeline.id != id ==> loops[h] == old(loops)[h]
    {
      if id !in pipelines {
        return Some(PipelineNotFound);
      }
      var handler := pipelines[id];
      var ok := Shutdown(handler, o.cancels(id));
      if !ok {
        return Some(ShutdownFailed);
      }
      StuckInLess(pipelines, old(loops), id, loops[handler]);
      Unregister(id);
      return None;
    }

    // delete(m.pipelines, id), then the driver if nothing uses it any more.
    method Unregister(id: string)
      requires Valid() && id in pipelines && !loops[pipelines[id]].live
      modifies this`pipelines, this`drivers
      ensures Valid() && pipelines == old(pipelines) - {id}
      ensures var e := old(pipelines)[id].pipeline.exporterID;
              drivers == if e in UsedBy(pipelines) then old(drivers) else old(drivers) - {e}
      ensures pipelines.Items <= old(pipelines).Items && drivers.Items <= old(drivers).Items
      ensures drivers.Values <= old(drivers).Values
      ensures pipelines.Keys == old(pipelines).Keys - {id}
      ensures Orphans() == old(Orphans())
    {
      var handler := pipelines[id];
      UsedByLess(pipelines, id);
      ItemsLess(pipelines, id);
      ItemsLess(drivers, handler.pipeline.exporterID);
      pipelines := pipelines - {id};
      StopExporterIfNeeded(handler);
    }

    // A request left in a handler's channel by a Shutdown that gave up takes effect.
    method HandlerEnds(id: string)
      requires Valid()
      modifies this`loops
      ensures Valid() && Evolves()
      ensures loops == if id in pipelines && old(loops)[pipelines[id]] == Loop(true, true)
                       then old(loops)[pipelines[id] := Loop(false, false)] else old(loops)
    {
      if id in pipelines && loops[pipelines[id]] == Loop(true, true) {
        StuckInSame(pipelines, loops, pipelines[id], Loop(false, false));
        loops := loops[pipelines[id] := Loop(false, false)];
      }
    }

    // Starts a pipeline unless it is already.
    method EnsureStarted(pipeline: Pipeline, o: Outcomes) returns (error: Option<Failure>)
      requires Valid()
      modifies this
      ensures Valid() && Evolves()
      ensures old(pipelines).Items <= pipelines.Items && old(drivers).Items <= drivers.Items
      ensures old(loops).Items <= loops.Items
      ensures error.Some? ==> error.value in {ExporterFailed, OpenLedgerFailed} && !o.Starts(pipeline)
      ensures error.None? ==> pipelines.Keys == old(pipelines).Keys + {pipeline.id}
      ensures error.None? && pipeline.id !in old(pipelines) ==> pipelines[pipeline.id].pipeline == pipeline
      ensures old(Tight()) && error != Some(OpenLedgerFailed) ==> Tight()
      ensures error.Some? ==> pipelines == old(pipelines) && loops == old(loops) && pipeline.id !in pipelines
      ensures pipeline.id in old(pipelines).Keys ==>
                error.None? && pipelines == old(pipelines) && drivers == old(drivers) && loops == old(loops)
    {
      error := StartPipeline(pipeline, o);
      if error == Some(AlreadyStarted) {
        return None;
      }
    }

    method StartNext(enabled: seq<Pipeline>, i: nat, o: Outcomes, ghost was: State) returns (error: Option<Failure>)
      requires i < |enabled| && Valid() && Starting(was, Snapshot(), enabled, i)
      modifies this
      ensures error.Some? ==> error.value in {ExporterFailed, OpenLedgerFailed} && !o.Starts(enabled[i])
      ensures error.Some? ==> !(Ids(enabled) <= was.pipelines.Keys)
      ensures Valid() && Starting(was, Snapshot(), enabled, if error.None? then i + 1 else i)
      ensures old(Tight()) && error != Some(OpenLedgerFailed) ==> Tight()
    {
      ghost var now := Snapshot();
      error := EnsureStarted(enabled[i], o);
      FollowsTwice(was, now, Snapshot());
      if error.None? {
        StartedOneMore(was, now, Snapshot(), enabled, i);
      } else {
        NotStarted(was, now, Snapshot(), enabled, i);
      }
    }

    // The first loop of synchronizePipelines.
    method StartAll(enabled: seq<Pipeline>, o: Outcomes) returns (error: Option<Failure>)
      requires Valid()
      modifies this
      ensures Valid() && Evolves()
      ensures old(pipelines).Items <= pipelines.Items && old(drivers).Items <= drivers.Items
      ensures old(loops).Items <= loops.Items
      ensures error.Some? ==>
                error.value in {ExporterFailed, OpenLedgerFailed} && exists p :: p in enabled && !o.Starts(p)
      ensures error.None? ==> pipelines.Keys == old(pipelines).Keys + Ids(enabled)
      ensures FromList(old(pipelines), pipelines, enabled)
      ensures old(Tight()) && error != Some(OpenLedgerFailed) ==> Tight()
      ensures Ids(enabled) <= old(pipelines).Keys ==>
                error.None? && pipelines == old(pipelines) && drivers == old(drivers) && loops == old(loops)
    {
      ghost var was := Snapshot();
      for i := 0 to |enabled|
        invariant Valid() && Starting(was, Snapshot(), enabled, i)
        invariant old(Tight()) ==> Tight()
      {
        error := StartNext(enabled, i, o, was);
        if error.Some? {
          return;
        }
      }
      assert enabled[..|enabled|] == enabled;
      return None;
    }

    // The second loop of synchronizePipelines: a failing stop is logged and skipped.
    method StopDisabled(enabled: seq<Pipeline>, o: Outcomes) returns (shutdownFailed: bool)
      requires Valid()
      modifies this
      ensures Valid() && Evolves()
      ensures pipelines.Items <= old(pipelines).Items && drivers.Items <= old(drivers).Items
      ensures old(pipelines).Keys * Ids(enabled) <= pipelines.Keys
      ensures !shutdownFailed ==> pipelines.Keys <= Ids(enabled)
      ensures CanStopAll(old(pipelines), old(loops), old(pipelines).Keys - Ids(enabled), o) ==> !shutdownFailed
      ensures Orphans() == old(Orphans())
      ensures old(pipelines).Keys <= Ids(enabled) ==>
                !shutdownFailed && pipelines == old(pipelines) && drivers == old(drivers) && loops == old(loops)
    {
      ghost var was := Snapshot();
      shutdownFailed := false;
      var ids := pipelines.Keys;
      while ids != {}
        invariant Disabling(was, Ids(enabled), ids, shutdownFailed)
        invariant CanStopAll(was.pipelines, was.loops, was.pipelines.Keys - Ids(enabled), o) ==> !shutdownFailed
        decreases ids
      {
        var id :| id in ids;
        var failed := StopIfDisabled(id, enabled, o, was, ids, shutdownFailed);
        shutdownFailed := shutdownFailed || failed;
        ids := ids - {id};
      }
    }

    // The state since that loop began, at `was`, with `left` still to come.
    ghost predicate Disabling(was: State, enabled: set<string>, left: set<string>, failed: bool)
      reads this
    {
      && Valid() && Follows(was, Snapshot()) && Orphans() == was.orphans
      && pipelines.Items <= was.pipelines.Items && drivers.Items <= was.drivers.Items
      && was.pipelines.Keys * enabled <= pipelines.Keys
      && left <= pipelines.Keys
      && (forall id :: id in left ==> id in was.pipelines && SameLoop(was, id))
      && (!failed ==> pipelines.Keys <= left + enabled)
      && (was.pipelines.Keys <= enabled ==>
            !failed && pipelines == was.pipelines && drivers == was.drivers && loops == was.loops)
    }

    // Nobody has touched the loop of this pipeline.
    ghost predicate SameLoop(was: State, id: string)
      requires id in was.pipelines
      reads this
    {
      var h := was.pipelines[id];
      h in was.loops && h in loops && loops[h] == was.loops[h] && h.pipeline.id == id
    }

    method StopIfDisabled(
        id: string, enabled: seq<Pipeline>, o: Outcomes, ghost was: State, ghost left: set<string>, ghost failed: bool)
      returns (failure: bool)
      requires Disabling(was, Ids(enabled), left, failed) && id in left
      modifies this
      ensures Disabling(was, Ids(enabled), left - {id}, failed || failure)
      ensures failure ==> id in was.pipelines.Keys - Ids(enabled) && !CanStop(was.pipelines, was.loops, id, o)
    {
      failure := false;
      if id !in Ids(enabled) {
        ghost var now := Snapshot();
        SameItems(pipelines, was.pipelines);
        CanStillStop(was.pipelines, was.loops, pipelines, loops, id, o);
        var error := StopPipeline(id, o);
        FollowsTwice(was, now, Snapshot());
        failure := error.Some?;
      }
    }

    method SynchronizePipelines(enabled: seq<Pipeline>, o: Outcomes)
      returns (error: Option<Failure>, shutdownFailed: bool)
      requires Valid()
      modifies this
      ensures Valid() && Evolves()
      ensures error.Some? ==> error.value in {StorageFailed, ExporterFailed, OpenLedgerFailed} && !o.AllSucceed(enabled)
      ensures error.Some? ==> old(pipelines).Items <= pipelines.Items
      ensures error == Some(StorageFailed) <==> !o.listed
      // Exactly the enabled pipelines run. Those that ran before were not restarted,
      // and the others run with the listed row.
      ensures error.None? ==> Ids(enabled) <= pipelines.Keys
      ensures error.None? && !shutdownFailed ==> pipelines.Keys == Ids(enabled)
      ensures CanStopAll(old(pipelines), old(loops), old(pipelines).Keys - Ids(enabled), o) ==> !shutdownFailed
      ensures old(pipelines).Keys * Ids(enabled) <= pipelines.Keys
      ensures Kept(old(pipelines), pipelines) && FromList(old(pipelines), pipelines, enabled)
      ensures forall e :: e in old(drivers).Keys * drivers.Keys ==> drivers[e] == old(drivers)[e]
      ensures old(Tight()) && error != Some(OpenLedgerFailed) ==> Tight()
      // Idempotent for an unchanged list.
      ensures old(pipelines).Keys == Ids(enabled) ==>
                && error in {None, Some(StorageFailed)}
                && pipelines == old(pipelines) && drivers == old(drivers) && loops == old(loops)
    {
      if !o.listed {
        return Some(StorageFailed), false;
      }
      error := StartAll(enabled, o);
      ghost var started := Snapshot();
      shutdownFailed := false;
      if error.None? {
        DisabledCanStop(old(Snapshot()), started, enabled, o);
        shutdownFailed := StopDisabled(enabled, o);
        Synchronized(old(pipelines), started.pipelines, pipelines, enabled);
        FollowsTwice(old(Snapshot()), started, Snapshot());
        TightIff(pipelines, drivers);
        TightIff(started.pipelines, started.drivers);
      } else {
        SameItems(old(pipelines), pipelines);
      }
      KeptDrivers(old(drivers), started.drivers, drivers);
    }

    // The state since a loop that only stops pipelines began, at `was`: those of `mine`
    // that are still registered are among `left`, and nothing but `mine` was stopped.
    ghost predicate Stopping(was: State, mine: set<string>, left: set<string>)
      reads this
    {
      && Ending(was, mine)
      && left <= pipelines.Keys
      && pipelines.Keys * mine <= left
      && (forall id :: id in left ==> id in was.pipelines && SameLoop(was, id))
      && (mine == {} ==> pipelines == was.pipelines && drivers == was.drivers && loops == was.loops)
    }

    ghost predicate Ending(was: State, mine: set<string>)
      reads this
    {
      && Valid() && Follows(was, Snapshot()) && Orphans() == was.orphans && made == was.made
      && pipelines.Items <= was.pipelines.Items && drivers.Items <= was.drivers.Items
      && was.pipelines.Keys - mine <= pipelines.Keys
    }

    // One turn of the loop of stopExporter.
    method StopIfOn(id: string, exporterID: string, o: Outcomes, ghost was: State, ghost left: set<string>)
      returns (error: Option<Failure>)
      requires Stopping(was, RunningOn(was.pipelines, exporterID), left) && id in left
      modifies this
      ensures error in {None, Some(ShutdownFailed)}
      ensures error.None? ==> Stopping(was, RunningOn(was.pipelines, exporterID), left - {id})
      ensures error.Some? ==> Ending(was, RunningOn(was.pipelines, exporterID))
      ensures error.Some? ==>
                id in RunningOn(was.pipelines, exporterID) && !CanStop(was.pipelines, was.loops, id, o)
    {
      ghost var mine := RunningOn(was.pipelines, exporterID);
      SameItems(pipelines, was.pipelines);
      assert id in mine <==> pipelines[id].pipeline.exporterID == exporterID;
      if pipelines[id].pipeline.exporterID != exporterID {
        return None;
      }
      ghost var now := Snapshot();
      CanStillStop(was.pipelines, was.loops, pipelines, loops, id, o);
      error := StopPipeline(id, o);
      FollowsTwice(was, now, Snapshot());
    }

    // Stops the pipelines of an exporter, up to the first failure.
    method StopExporter(exporterID: string, o: Outcomes) returns (error: Option<Failure>)
      requires Valid()
      modifies this
      ensures Valid() && Evolves() && Orphans() == old(Orphans()) && made == old(made)
      ensures error in {None, Some(ShutdownFailed)}
      ensures error.None? ==> exporterID !in UsedBy(pipelines)
      ensures pipelines.Items <= old(pipelines).Items && drivers.Items <= old(drivers).Items
      ensures old(pipelines).Keys - old(RunningOn(pipelines, exporterID)) <= pipelines.Keys
      ensures CanStopAll(old(pipelines), old(loops), old(RunningOn(pipelines, exporterID)), o) ==> error.None?
      ensures old(RunningOn(pipelines, exporterID)) == {} ==>
                error.None? && pipelines == old(pipelines) && drivers == old(drivers) && loops == old(loops)
    {
      ghost var was := Snapshot();
      ghost var mine := RunningOn(pipelines, exporterID);
      var ids := pipelines.Keys;
      while ids != {}
        invariant Stopping(was, mine, ids)
        decreases ids
      {
        var id :| id in ids;
        error := StopIfOn(id, exporterID, o, was, ids);
        if error.Some? {
          return;
        }
        ids := ids - {id};
      }
      NoneRunningOn(pipelines, was.pipelines, exporterID);
      return None;
    }

    // Synchronizing when no pipeline of the exporter runs: its driver, if it has one
    // afterwards, was there before or was made since.
    method Renew(id: string, enabled: seq<Pipeline>, o: Outcomes) returns (error: Option<Failure>, shutdownFailed: bool)
      requires Valid() && id !in UsedBy(pipelines)
      modifies this
      ensures Valid() && Evolves()
      ensures forall p :: p in pipelines && pipelines[p].pipeline.exporterID == id ==>
                (pipelines[p].exporter !in old(made) <==> id !in old(Orphans()))
      ensures error.Some? ==> error.value in {StorageFailed, ExporterFailed, OpenLedgerFailed} && !o.AllSucceed(enabled)
      ensures error.Some? ==> old(pipelines).Keys <= pipelines.Keys
      ensures error == Some(StorageFailed) <==> !o.listed
      ensures error.None? ==> Ids(enabled) <= pipelines.Keys
      ensures error.None? && !shutdownFailed ==> pipelines.Keys == Ids(enabled)
      ensures Kept(old(pipelines), pipelines) && FromList(old(pipelines), pipelines, enabled)
      ensures old(Tight()) && error != Some(OpenLedgerFailed) ==> Tight()
    {
      ghost var stored, known := drivers, made;
      error, shutdownFailed := SynchronizePipelines(enabled, o);
      if error.Some? {
        SameItems(old(pipelines), pipelines);
      }
      if id in drivers {
        assert drivers[id] in drivers.Values;
        if id in stored {
          assert stored[id] in stored.Values;
        } else {
          OwnId(pipelines, stored, drivers[id]);
          assert drivers[id] !in known;
        }
      }
    }

    // Everything of updateExporter up to the synchronization.
    method StopAndStore(id: string, o: Outcomes) returns (error: Option<Failure>)
      requires Valid()
      modifies this
      ensures Valid() && Evolves() && Orphans() == old(Orphans()) && made == old(made)
      ensures error.Some? ==> error.value in {InvalidConfiguration, ShutdownFailed, StorageFailed}
      ensures error.None? ==> id !in UsedBy(pipelines)
      ensures pipelines.Items <= old(pipelines).Items
      ensures old(pipelines).Keys - old(RunningOn(pipelines, id)) <= pipelines.Keys
      ensures error == Some(InvalidConfiguration) <==> !o.valid
      ensures !o.valid ==> pipelines == old(pipelines) && drivers == old(drivers) && loops == old(loops)
      ensures error == Some(StorageFailed) ==> !o.stored
      ensures error.None? ==> o.stored
      ensures o.valid && o.stored && CanStopAll(old(pipelines), old(loops), old(RunningOn(pipelines, id)), o) ==>
                error.None?
    {
      if !o.valid {
        return Some(InvalidConfiguration);
      }
      error := StopExporter(id, o);
      if error.None? && !o.stored {
        return Some(StorageFailed);
      }
    }

    method UpdateExporter(id: string, enabled: seq<Pipeline>, o: Outcomes)
      returns (error: Option<Failure>, shutdownFailed: bool)
      requires Valid()
      modifies this
      ensures Valid() && Evolves()
      // On success the exporter's pipelines run on a driver made since, unless the
      // exporter had a driver that no pipeline was using: that one is taken up again.
      ensures error.None? ==> forall p :: p in pipelines && pipelines[p].pipeline.exporterID == id ==>
                (pipelines[p].exporter !in old(made) <==> id !in old(Orphans()))
      ensures error.None? ==> Ids(enabled) <= pipelines.Keys
      ensures error.None? && !shutdownFailed ==> pipelines.Keys == Ids(enabled)
      ensures RanOrListed(old(pipelines), pipelines, enabled)
      // After a failure, only pipelines of this exporter may have been stopped.
      ensures error.Some? ==> old(pipelines).Keys - old(RunningOn(pipelines, id)) <= pipelines.Keys
      ensures error == Some(InvalidConfiguration) <==> !o.valid
      ensures !o.valid ==> pipelines == old(pipelines) && drivers == old(drivers) && loops == old(loops)
      ensures error == Some(StorageFailed) ==> !o.stored || !o.listed
      ensures error.None? ==> o.valid && o.stored && o.listed
      ensures o.AllSucceed(enabled) && CanStopAll(old(pipelines), old(loops), old(RunningOn(pipelines, id)), o) ==>
                error.None?
      ensures old(Tight()) && error != Some(OpenLedgerFailed) ==> Tight()
    {
      error := StopAndStore(id, o);
      shutdownFailed := false;
      ghost var stopped := Snapshot();
      TightIff(pipelines, drivers);
      if error.Some? {
        OnlyStopped(old(pipelines), pipelines, enabled);
        return;
      }
      error, shutdownFailed := Renew(id, enabled, o);
      StoppedThenListed(old(pipelines), stopped.pipelines, pipelines, enabled);
      FollowsTwice(old(Snapshot()), stopped, Snapshot());
    }

    method DeleteExporter(id: string, o: Outcomes) returns (error: Option<Failure>)
      requires Valid()
      modifies this
      ensures Valid() && Evolves() && Orphans() == old(Orphans())
      ensures error.None? ==> id !in UsedBy(pipelines)
      ensures pipelines.Items <= old(pipelines).Items && drivers.Items <= old(drivers).Items
      ensures old(pipelines).Keys - old(RunningOn(pipelines, id)) <= pipelines.Keys
      ensures error in {None, Some(ShutdownFailed), Some(StorageFailed)}
      ensures error == Some(StorageFailed) ==> !o.stored
      ensures error.None? ==> o.stored
      ensures o.stored && CanStopAll(old(pipelines), old(loops), old(RunningOn(pipelines, id)), o) ==> error.None?
    {
      error := StopExporter(id, o);
      if error.None? {
        error := if o.stored then None else Some(StorageFailed);
      }
    }

    method DeletePipeline(id: string, o: Outcomes) returns (error: Option<Failure>)
      requires Valid()
      modifies this
      ensures Valid() && Evolves() && Orphans() == old(Orphans())
      ensures error.None? ==> id !in pipelines
      ensures pipelines.Items <= old(pipelines).Items && old(pipelines).Keys - {id} <= pipelines.Keys
      ensures error in {None, Some(PipelineNotFound), Some(ShutdownFailed), Some(StorageFailed)}
      ensures error == Some(PipelineNotFound) <==> id !in old(pipelines)
      ensures error == Some(ShutdownFailed) ==> pipelines == old(pipelines) && drivers == old(drivers)
      ensures error == Some(StorageFailed) ==> !o.stored && id !in pipelines
      ensures error.None? ==> o.stored
      ensures o.stored && CanStop(old(pipelines), old(loops), id, o) ==> error.None?
    {
      error := StopPipeline(id, o);
      if error.None? {
        error := if o.stored then None else Some(StorageFailed);
      }
    }

    // Starts a pipeline that has been stopped; a failure is only logged.
    method Restart(pipeline: Pipeline, o: Outcomes) returns (error: Option<Failure>)
      requires Valid() && pipeline.id !in pipelines
      modifies this
      ensures Valid() && Evolves()
      ensures pipelines - {pipeline.id} == old(pipelines)
      ensures error in {None, Some(ExporterFailed), Some(OpenLedgerFailed)}
      ensures o.Starts(pipeline) ==> error.None?
      ensures error.None? <==> pipeline.id in pipelines
      ensures error.None? ==> pipelines[pipeline.id].pipeline == pipeline && pipelines[pipeline.id] !in old(loops)
      ensures old(Tight()) && error != Some(OpenLedgerFailed) ==> Tight()
    {
      error := StartPipeline(pipeline, o);
    }

    // `reset` is the row that UpdatePipeline returns. A pipeline that ran is registered
    // again, with that row and in a new loop, exactly when its restart succeeds.
    method ResetPipeline(id: string, reset: Pipeline, o: Outcomes)
      returns (error: Option<Failure>, restarted: Option<Failure>)
      requires Valid() && reset.id == id
      modifies this
      ensures Valid() && Evolves()
      ensures pipelines - {id} == old(pipelines) - {id}
      ensures error in {None, Some(ShutdownFailed), Some(StorageFailed)}
      ensures id !in old(pipelines) ==> pipelines == old(pipelines) && drivers == old(drivers)
      ensures id !in old(pipelines) || error.Some? ==> restarted.None?
      ensures error == Some(ShutdownFailed) ==> pipelines == old(pipelines) && drivers == old(drivers)
      ensures error == Some(StorageFailed) ==> !o.stored && id !in pipelines
      ensures error.None? ==> o.stored
      ensures o.stored && (id in old(pipelines) ==> CanStop(old(pipelines), old(loops), id, o)) ==> error.None?
      ensures error.None? && id in old(pipelines) ==>
                && (restarted.None? <==> id in pipelines)
                && (o.Starts(reset) ==> restarted.None?)
                && (restarted.None? ==> pipelines[id].pipeline == reset && pipelines[id] !in old(loops))
      ensures old(Tight()) && restarted != Some(OpenLedgerFailed) ==> Tight()
    {
      restarted := None;
      var started := id in pipelines;
      if started {
        error := StopForReset(id, o);
        if error.Some? {
          return;
        }
      }
      if !o.stored {
        return Some(StorageFailed), None;
      }
      if started {
        restarted := Restart(reset, o);
      }
      return None, restarted;
    }

    method StopForReset(id: string, o: Outcomes) returns (error: Option<Failure>)
      requires Valid() && id in pipelines
      modifies this
      ensures Valid() && Evolves()
      ensures error in {None, Some(ShutdownFailed)}
      ensures error.Some? ==> pipelines == old(pipelines) && drivers == old(drivers)
      ensures error.None? ==> pipelines == old(pipelines) - {id}
      ensures CanStop(old(pipelines), old(loops), id, o) ==> error.None?
      ensures loops.Keys == old(loops).Keys
      ensures old(Tight()) ==> Tight()
    {
      error := StopPipeline(id, o);
      TightIff(pipelines, drivers);
    }

    // Every pipeline, since none is in the empty list.
    method StopPipelines(o: Outcomes) returns (shutdownFailed: bool)
      requires Valid()
      modifies this
      ensures Valid() && Evolves() && Orphans() == old(Orphans())
      ensures !shutdownFailed ==> pipelines == map[] && drivers.Keys == old(Orphans())
      ensures CanStopAll(old(pipelines), old(loops), old(pipelines).Keys, o) ==> !shutdownFailed
    {
      shutdownFailed := StopDisabled([], o);
    }

    // Main result: over any operations, in any order, with any outcomes, the manager
    // stays valid, and as long as OpenLedger never fails, without idle drivers.
    method Serve(operations: seq<(Operation, Outcomes)>) returns (ledgerFailed: bool)
      requires Valid()
      modifies this
      ensures Valid() && Evolves()
      ensures old(Tight()) && !ledgerFailed ==> Tight()
    {
      ledgerFailed := false;
      for i := 0 to |operations|
        invariant Valid() && Evolves()
        invariant old(Tight()) && !ledgerFailed ==> Tight()
      {
        var (operation, o) := operations[i];
        var error, failed := Perform(operation, o);
        ledgerFailed := ledgerFailed || failed || error == Some(OpenLedgerFailed);
      }
    }

    method Perform(operation: Operation, o: Outcomes) returns (error: Option<Failure>, ledgerFailed: bool)
      requires Valid()
      modifies this
      ensures Valid() && Evolves()
      ensures old(Tight()) && !ledgerFailed && error != Some(OpenLedgerFailed) ==> Tight()
    {
      error, ledgerFailed := None, false;
      match operation {
        case Start(pipeline) => error := StartPipeline(pipeline, o);
        case StopOne(id) => error := StopPipeline(id, o);
        case Synchronize(enabled) => var failed; error, failed := SynchronizePipelines(enabled, o);
        case Update(id, enabled) => var failed; error, failed := UpdateExporter(id, enabled, o);
        case DropExporter(id) => error := DeleteExporter(id, o);
        case DropPipeline(id) => error := DeletePipeline(id, o);
        case ResetOne(reset) =>
          var restarted;
          error, restarted := ResetPipeline(reset.id, reset, o);
          ledgerFailed := restarted == Some(OpenLedgerFailed);
        case StopAll => var failed := StopPipelines(o);
        case LoopEnds(id) => HandlerEnds(id);
      }
      TightIff(pipelines, drivers);
    }
  }

  // It does happen that an update succeeds and the exporter keeps an old driver: after a
  // start that failed to open the ledger.
  method LeftOverDriver(p: Pipeline) returns (m: Manager, error: Option<Failure>, ghost before: set<Driver>)
    ensures fresh(m) && m.Valid() && error.None?
    ensures p.id in m.pipelines && m.pipelines[p.id].pipeline == p && m.pipelines[p.id].exporter in before
  {
    m := new Manager();
    var failed := m.StartPipeline(p, Outcomes(true, true, true, _ => true, _ => false, _ => false));
    before := m.made;
    assert p.exporterID in m.Orphans();
    assert m.pipelines == map[];
    var shutdownFailed;
    var o := Outcomes(true, true, true, _ => true, _ => true, _ => false);
    error, shutdownFailed := m.UpdateExporter(p.exporterID, [p], o);
    assert p.id in Ids([p]) by {
      assert p in [p];
    }
  }
}
