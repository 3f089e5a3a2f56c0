/**
  Loading and unloading models: a reference count over all contexts decides when the sensor, started
  by the context of an on-sensor model, is stopped.
 */
module ModelLifetime {
  import opened Basics

  datatype Target = Cpu | Gpu | Npu | Imx500

  /** The part of a model context that loading and unloading update; the flags say which pointers are set. */
  class Context {
    var target: Target
    var sensorCore: bool
    var sensorStream: bool
    var graph: bool
    var modelIdx: uint32

    constructor ()
      ensures Blank()
    {
      target, sensorCore, sensorStream, graph, modelIdx := Cpu, false, false, false, 0;
    }

    predicate Blank()
      reads this
    {
      !sensorCore && !sensorStream && !graph
    }

    /** Loaded for the sensor: stream and core are open. */
    predicate OnSensor()
      reads this
    {
      target == Imx500 && sensorCore && sensorStream && !graph
    }

    predicate OnHost()
      reads this
    {
      target != Imx500 && !sensorCore && !sensorStream && graph
    }
  }

  // ------------------------------------------------------------------ specification

  datatype Event = Started(ctx: Context) | Stopped(ctx: Context) | Closed(ctx: Context)

  /**
    Which contexts are loaded, which of them run on the sensor, the context whose sensor is to be
    stopped with the last model, and the sensor calls so far. `lost` are the contexts that waited to be
    stopped when another one took their place.
   */
  datatype Ledger = Ledger(loaded: set<Context>, onSensor: set<Context>, pending: Option<Context>, lost: set<Context>, log: seq<Event>) {
    function Waiting(): set<Context> {
      if pending.Some? then {pending.value} else {}
    }

    /** The contexts that something still refers to, or should. */
    function Held(): set<Context> {
      loaded + Waiting() + lost
    }
  }

  datatype Op = Load(ctx: Context, sensor: bool) | Unload(ctx: Context)

  function AfterEvent(running: set<Context>, e: Event): set<Context> {
    if e.Started? then running + {e.ctx} else if e.Stopped? then running - {e.ctx} else running
  }

  /** Contexts whose sensor was started and not stopped. */
  function Running(log: seq<Event>): set<Context> {
    if log == [] then {} else AfterEvent(Running(log[..|log| - 1]), log[|log| - 1])
  }

  /** A context is loaded when it is free, and unloaded when it is loaded. */
  predicate Legal(l: Ledger, op: Op) {
    if op.Load? then op.ctx !in l.Held() else op.ctx in l.loaded
  }

  function Loaded(l: Ledger, ctx: Context, sensor: bool): Ledger {
    if sensor then l.(loaded := l.loaded + {ctx}, onSensor := l.onSensor + {ctx}, log := l.log + [Started(ctx)])
    else l.(loaded := l.loaded + {ctx})
  }

  /** A context leaves; if its sensor runs, it waits to be stopped in the place of any other. */
  function Released(l: Ledger, ctx: Context): Ledger {
    if ctx in l.onSensor then
      l.(loaded := l.loaded - {ctx}, onSensor := l.onSensor - {ctx}, pending := Some(ctx), lost := l.lost + l.Waiting())
    else l.(loaded := l.loaded - {ctx})
  }

  /** With the last context gone, the sensor that waits for it is stopped and closed. */
  function Settled(l: Ledger): Ledger {
    if l.loaded == {} && l.pending.Some? then
      l.(pending := None, log := l.log + [Stopped(l.pending.value), Closed(l.pending.value)])
    else l
  }

  function Next(l: Ledger, op: Op): Ledger {
    if op.Load? then Loaded(l, op.ctx, op.sensor) else Settled(Released(l, op.ctx))
  }

  // ------------------------------------------------------------------ what every run keeps

  /** The sensors that run are those of loaded contexts, the one to be stopped, and the lost ones. */
  ghost predicate Open(l: Ledger) {
    && l.onSensor <= l.loaded
    && l.loaded !! l.Waiting() && l.loaded !! l.lost && l.Waiting() !! l.lost
    && Running(l.log) == l.onSensor + l.Waiting() + l.lost
  }

  /** Between calls nothing waits once no context is loaded. */
  ghost predicate Consistent(l: Ledger) {
    Open(l) && (l.loaded == {} ==> l.pending.None?)
  }

  lemma RunningAppended(log: seq<Event>, e: Event)
    ensures Running(log + [e]) == AfterEvent(Running(log), e)
  {
    assert (log + [e])[..|log|] == log;
  }

  lemma LoadedConsistent(l: Ledger, ctx: Context, sensor: bool)
    requires Consistent(l) && Legal(l, Load(ctx, sensor))
    ensures Consistent(Loaded(l, ctx, sensor))
  {
    RunningAppended(l.log, Started(ctx));
  }

  lemma ReleasedOpen(l: Ledger, ctx: Context)
    requires Consistent(l) && Legal(l, Unload(ctx))
    ensures Open(Released(l, ctx))
  {
  }

  lemma SettledConsistent(l: Ledger)
    requires Open(l)
    ensures Consistent(Settled(l))
  {
    if l.loaded == {} && l.pending.Some? {
      var ctx := l.pending.value;
      RunningAppended(l.log, Stopped(ctx));
      RunningAppended(l.log + [Stopped(ctx)], Closed(ctx));
      assert l.log + [Stopped(ctx), Closed(ctx)] == l.log + [Stopped(ctx)] + [Closed(ctx)];
    }
  }

  lemma NextConsistent(l: Ledger, op: Op)
    requires Consistent(l) && Legal(l, op)
    ensures Consistent(Next(l, op))
  {
    if op.Load? {
      LoadedConsistent(l, op.ctx, op.sensor);
    } else {
      ReleasedOpen(l, op.ctx);
      SettledConsistent(Released(l, op.ctx));
    }
  }

  function Final(run: History<Op>): Ledger {
    if run.Nothing? then Ledger({}, {}, None, {}, []) else Next(Final(run.before), run.last)
  }

  ghost predicate IsRun(run: History<Op>) {
    run.Then? ==> IsRun(run.before) && Legal(Final(run.before), run.last)
  }

  lemma {:induction false} RunConsistent(run: History<Op>)
    requires IsRun(run)
    ensures Consistent(Final(run))
  {
    if run.Then? {
      RunConsistent(run.before);
      NextConsistent(Final(run.before), run.last);
    }
  }

  // ------------------------------------------------------------------ when every sensor is stopped

  /** A context leaves the sensor while another one waits for its own to be stopped. */
  predicate Displaces(l: Ledger, op: Op) {
    op.Unload? && op.ctx in l.onSensor && l.pending.Some?
  }

  ghost predicate EverDisplaces(run: History<Op>) {
    run.Then? && (EverDisplaces(run.before) || Displaces(Final(run.before), run.last))
  }

  lemma {:induction false} LostIffDisplaced(run: History<Op>)
    requires IsRun(run)
    ensures Final(run).lost == {} <==> !EverDisplaces(run)
  {
    if run.Then? {
      LostIffDisplaced(run.before);
      var l := Final(run.before);
      if Displaces(l, run.last) {
        assert l.pending.value in Final(run).lost;
      }
    }
  }

  /** Once every context is unloaded, every sensor is stopped iff no unload took another's place. */
  lemma AllStoppedIff(run: History<Op>)
    requires IsRun(run) && Final(run).loaded == {}
    ensures Running(Final(run).log) == {} <==> !EverDisplaces(run)
  {
    RunConsistent(run);
    LostIffDisplaced(run);
  }

  /** Only `ctx` is ever loaded for the sensor. */
  ghost predicate SingleSensor(run: History<Op>, ctx: Context) {
    run.Then? ==> SingleSensor(run.before, ctx) && (run.last.Load? && run.last.sensor ==> run.last.ctx == ctx)
  }

  lemma {:induction false} SingleSensorUsers(run: History<Op>, ctx: Context)
    requires IsRun(run) && SingleSensor(run, ctx)
    ensures Final(run).onSensor + Final(run).Waiting() <= {ctx}
  {
    if run.Then? {
      SingleSensorUsers(run.before, ctx);
    }
  }

  lemma {:induction false} SingleSensorNeverDisplaces(run: History<Op>, ctx: Context)
    requires IsRun(run) && SingleSensor(run, ctx)
    ensures !EverDisplaces(run)
  {
    if run.Then? {
      SingleSensorNeverDisplaces(run.before, ctx);
      SingleSensorUsers(run.before, ctx);
      RunConsistent(run.before);
    }
  }

  /**
    With one on-sensor context, the sensor runs from its load until the last unload of all: it runs
    exactly while the context is loaded or waits, and with nothing loaded it does not run.
   */
  lemma SingleSensorRuns(run: History<Op>, ctx: Context)
    requires IsRun(run) && SingleSensor(run, ctx)
    ensures Running(Final(run).log) == Final(run).onSensor + Final(run).Waiting() <= {ctx}
    ensures Final(run).loaded == {} ==> Running(Final(run).log) == {}
  {
    RunConsistent(run);
    SingleSensorUsers(run, ctx);
    SingleSensorNeverDisplaces(run, ctx);
    LostIffDisplaced(run);
  }

  // ------------------------------------------------------------------ exactly once, and only then

  /** Every start of a context's sensor is matched by a stop, but for one while it runs; every stop by a close. */
  ghost predicate Balanced(l: Ledger, ctx: Context) {
    && Occurrences(l.log, Closed(ctx)) == Occurrences(l.log, Stopped(ctx))
    && Occurrences(l.log, Started(ctx)) == Occurrences(l.log, Stopped(ctx)) + if ctx in Running(l.log) then 1 else 0
  }

  lemma LoadedBalanced(l: Ledger, c: Context, sensor: bool, ctx: Context)
    requires Consistent(l) && Legal(l, Load(c, sensor)) && Balanced(l, ctx)
    ensures Balanced(Loaded(l, c, sensor), ctx)
  {
    RunningAppended(l.log, Started(c));
    OccurrencesAppended(l.log, Started(c), Started(ctx));
    OccurrencesAppended(l.log, Started(c), Stopped(ctx));
    OccurrencesAppended(l.log, Started(c), Closed(ctx));
  }

  lemma CountsAfterStop(log: seq<Event>, c: Context, e: Event)
    ensures Occurrences(log + [Stopped(c), Closed(c)], e)
         == Occurrences(log, e) + (if e == Stopped(c) then 1 else 0) + (if e == Closed(c) then 1 else 0)
  {
    OccurrencesAppended(log, Stopped(c), e);
    OccurrencesAppended(log + [Stopped(c)], Closed(c), e);
    assert log + [Stopped(c), Closed(c)] == log + [Stopped(c)] + [Closed(c)];
  }

  lemma SettledBalanced(l: Ledger, ctx: Context)
    requires Open(l) && Balanced(l, ctx)
    ensures Balanced(Settled(l), ctx)
  {
    if l.loaded == {} && l.pending.Some? {
      var c := l.pending.value;
      assert c in l.Waiting();
      CountsAfterStop(l.log, c, Started(ctx));
      CountsAfterStop(l.log, c, Stopped(ctx));
      CountsAfterStop(l.log, c, Closed(ctx));
      SettledConsistent(l);
    }
  }

  lemma {:induction false} RunBalanced(run: History<Op>, ctx: Context)
    requires IsRun(run)
    ensures Balanced(Final(run), ctx)
  {
    if run.Then? {
      RunBalanced(run.before, ctx);
      RunConsistent(run.before);
      var l := Final(run.before);
      if run.last.Load? {
        LoadedBalanced(l, run.last.ctx, run.last.sensor, ctx);
      } else {
        ReleasedOpen(l, run.last.ctx);
        SettledBalanced(Released(l, run.last.ctx), ctx);
      }
    }
  }

  /** No more closes than stops, and no more stops than starts. */
  predicate NoneAhead(log: seq<Event>, ctx: Context) {
    Occurrences(log, Closed(ctx)) <= Occurrences(log, Stopped(ctx)) <= Occurrences(log, Started(ctx))
  }

  /** That holds at every moment: a sensor is stopped only while it runs, and closed only when it is stopped. */
  ghost predicate Orderly(log: seq<Event>, ctx: Context) {
    forall n :: 0 <= n <= |log| ==> NoneAhead(log[..n], ctx)
  }

  lemma OrderlyAppended(log: seq<Event>, e: Event, ctx: Context)
    requires Orderly(log, ctx) && NoneAhead(log + [e], ctx)
    ensures Orderly(log + [e], ctx)
  {
    forall n | 0 <= n <= |log| + 1 ensures NoneAhead((log + [e])[..n], ctx) {
      if n <= |log| {
        assert (log + [e])[..n] == log[..n];
      } else {
        assert (log + [e])[..n] == log + [e];
      }
    }
  }

  lemma SettledOrderly(l: Ledger, ctx: Context)
    requires Open(l) && Balanced(l, ctx) && Orderly(l.log, ctx)
    ensures Orderly(Settled(l).log, ctx)
  {
    if l.loaded == {} && l.pending.Some? {
      var c := l.pending.value;
      var one := l.log + [Stopped(c)];
      assert c in l.Waiting();
      OccurrencesAppended(l.log, Stopped(c), Started(ctx));
      OccurrencesAppended(l.log, Stopped(c), Stopped(ctx));
      OccurrencesAppended(l.log, Stopped(c), Closed(ctx));
      OrderlyAppended(l.log, Stopped(c), ctx);
      OccurrencesAppended(one, Closed(c), Started(ctx));
      OccurrencesAppended(one, Closed(c), Stopped(ctx));
      OccurrencesAppended(one, Closed(c), Closed(ctx));
      OrderlyAppended(one, Closed(c), ctx);
      assert l.log + [Stopped(c), Closed(c)] == one + [Closed(c)];
    }
  }

  /** Over every run, at every moment, each sensor is started before it is stopped, and stopped before it is closed. */
  lemma {:induction false} RunOrderly(run: History<Op>, ctx: Context)
    requires IsRun(run)
    ensures Orderly(Final(run).log, ctx)
  {
    if run.Nothing? {
      assert NoneAhead([], ctx);
    } else {
      RunOrderly(run.before, ctx);
      RunConsistent(run.before);
      RunBalanced(run.before, ctx);
      var l, op := Final(run.before), run.last;
      if op.Unload? {
        ReleasedOpen(l, op.ctx);
        SettledOrderly(Released(l, op.ctx), ctx);
      } else if op.sensor {
        OccurrencesAppended(l.log, Started(op.ctx), Started(ctx));
        OccurrencesAppended(l.log, Started(op.ctx), Stopped(ctx));
        OccurrencesAppended(l.log, Started(op.ctx), Closed(ctx));
        assert l.log[..|l.log|] == l.log && NoneAhead(l.log, ctx);
        OrderlyAppended(l.log, Started(op.ctx), ctx);
      }
    }
  }

  /** Loads of `ctx` for the sensor. */
  function SensorLoads(run: History<Op>, ctx: Context): nat {
    if run.Nothing? then 0 else SensorLoads(run.before, ctx) + if run.last == Load(ctx, true) then 1 else 0
  }

  lemma {:induction false} StartedOncePerLoad(run: History<Op>, ctx: Context)
    ensures Occurrences(Final(run).log, Started(ctx)) == SensorLoads(run, ctx)
  {
    if run.Then? {
      StartedOncePerLoad(run.before, ctx);
      var l := Final(run.before);
      if run.last.Load? {
        OccurrencesAppended(l.log, Started(run.last.ctx), Started(ctx));
      } else {
        var r := Released(l, run.last.ctx);
        if r.loaded == {} && r.pending.Some? {
          CountsAfterStop(r.log, r.pending.value, Started(ctx));
        }
      }
    }
  }

  /**
    With one on-sensor context, whatever the order of the unloads: once every context is unloaded, the
    sensor has been stopped and closed exactly as often as it has been loaded.
   */
  lemma StoppedOncePerLoad(run: History<Op>, ctx: Context)
    requires IsRun(run) && SingleSensor(run, ctx) && Final(run).loaded == {}
    ensures Occurrences(Final(run).log, Stopped(ctx)) == Occurrences(Final(run).log, Closed(ctx)) == SensorLoads(run, ctx)
  {
    RunBalanced(run, ctx);
    SingleSensorRuns(run, ctx);
    StartedOncePerLoad(run, ctx);
  }

  /** The sensor of `ctx` is stopped by a call iff that unloads the last context while it runs. */
  ghost predicate StopsIffLast(l: Ledger, op: Op, ctx: Context) {
    Occurrences(Next(l, op).log, Stopped(ctx)) > Occurrences(l.log, Stopped(ctx))
    <==> op.Unload? && l.loaded == {op.ctx} && ctx in Running(l.log)
  }

  lemma LoadStopsNone(l: Ledger, c: Context, sensor: bool, ctx: Context)
    ensures StopsIffLast(l, Load(c, sensor), ctx)
  {
    OccurrencesAppended(l.log, Started(c), Stopped(ctx));
  }

  lemma SettledStops(l: Ledger, ctx: Context)
    ensures Occurrences(Settled(l).log, Stopped(ctx)) > Occurrences(l.log, Stopped(ctx)) <==> l.loaded == {} && l.pending == Some(ctx)
  {
    if l.loaded == {} && l.pending.Some? {
      CountsAfterStop(l.log, l.pending.value, Stopped(ctx));
    }
  }

  lemma UnloadStops(l: Ledger, c: Context, ctx: Context)
    requires c in l.loaded && l.onSensor <= l.loaded
    requires Running(l.log) == l.onSensor + l.Waiting() <= {ctx}
    ensures StopsIffLast(l, Unload(c), ctx)
  {
    var r := Released(l, c);
    SettledStops(r, ctx);
    assert r.loaded == {} <==> l.loaded == {c};
    if l.loaded == {c} {
      assert r.pending == Some(ctx) <==> ctx in l.onSensor + l.Waiting();
    }
  }

  /**
    The sensor is stopped by the unload that leaves no context loaded and by no other call, and by that
    one iff it has been started and not been stopped since.
   */
  lemma StopsAtLastUnload(run: History<Op>, op: Op, ctx: Context)
    requires IsRun(Then(run, op)) && SingleSensor(Then(run, op), ctx)
    ensures StopsIffLast(Final(run), op, ctx)
  {
    if op.Load? {
      LoadStopsNone(Final(run), op.ctx, op.sensor, ctx);
    } else {
      SingleSensorRuns(run, ctx);
      RunConsistent(run);
      UnloadStops(Final(run), op.ctx, ctx);
    }
  }

  /** Two on-sensor contexts, unloaded one after the other: the sensor of the first is never stopped. */
  lemma TwoSensorsLoseOne(a: Context, b: Context)
    requires a != b
    ensures var run := Then(Then(Then(Then(Nothing, Load(a, true)), Load(b, true)), Unload(a)), Unload(b));
      IsRun(run) && Final(run).loaded == {} && Running(Final(run).log) == {a}
  {
    var one := Then(Nothing, Load(a, true));
    var two := Then(one, Load(b, true));
    var three := Then(two, Unload(a));
    var run := Then(three, Unload(b));
    assert IsRun(one) && Final(one) == Ledger({a}, {a}, None, {}, [Started(a)]);
    assert IsRun(two) && Final(two) == Ledger({a, b}, {a, b}, None, {}, [Started(a), Started(b)]);
    assert IsRun(three) && Final(three) == Ledger({b}, {b}, Some(a), {}, [Started(a), Started(b)]);
    assert IsRun(run) && Final(run).lost == {a} && Final(run).loaded == {};
    RunConsistent(run);
  }

  // ------------------------------------------------------------------ the calls

  /** What the sensor and the inference library answer; a flag is false for a failure. */
  datatype Answers = Answers(coreAllocated: bool, coreOpens: bool, streamAllocated: bool, streamOpens: bool, bundleSet: bool, starts: bool,
                             modelFound: bool, pathFits: bool, modelLoads: bool, graphAllocated: bool, graphInitialised: bool)

  datatype Result = Success | Failure | InvalidParam

  /** What it takes for a load to succeed. */
  predicate Loads(a: Answers, target: Target) {
    if target == Imx500 then a.coreAllocated && a.coreOpens && a.streamAllocated && a.streamOpens && a.bundleSet && a.starts
    else a.modelFound && a.pathFits && a.modelLoads && a.graphAllocated && a.graphInitialised
  }

  /** The flags of a context tell what it runs on. */
  ghost predicate FlagsMatch(l: Ledger)
    reads l.loaded, l.Waiting()
  {
    && (forall c <- l.loaded :: if c in l.onSensor then c.OnSensor() else c.OnHost())
    && (l.pending.Some? ==> l.pending.value.OnSensor())
  }

  /** The fields of the application agree with its books. */
  ghost predicate Tallies(count: int, log: seq<Event>, shutdown: bool, waiting: Context?, l: Ledger) {
    && count == |l.loaded|
    && log == l.log
    && shutdown == l.pending.Some?
    && waiting == (if l.pending.Some? then l.pending.value else null)
  }

  lemma LoadedTallies(count: int, log: seq<Event>, shutdown: bool, waiting: Context?, l: Ledger, ctx: Context, sensor: bool)
    requires Tallies(count, log, shutdown, waiting, l) && ctx !in l.loaded
    ensures Tallies(count + 1, if sensor then log + [Started(ctx)] else log, shutdown, waiting, Loaded(l, ctx, sensor))
  {
  }

  lemma LoadedMatches(l: Ledger, ctx: Context, sensor: bool)
    requires FlagsMatch(l) && l.onSensor <= l.loaded && ctx !in l.loaded
    requires if sensor then ctx.OnSensor() else ctx.OnHost()
    ensures FlagsMatch(Loaded(l, ctx, sensor))
  {
  }

  class EdgeAppCore {
    var modelCount: uint32
    var pendingSensorShutdown: bool
    var pendingCtx: Context?
    /** The calls to started sensors; a stream whose start fails is closed at once and is not recorded. */
    var log: seq<Event>

    constructor ()
      ensures Valid(Final(Nothing))
    {
      modelCount, pendingSensorShutdown, pendingCtx, log := 0, false, null, [];
    }

    ghost predicate Agrees(l: Ledger)
      reads this, l.loaded, l.Waiting()
    {
      Tallies(modelCount, log, pendingSensorShutdown, pendingCtx, l) && FlagsMatch(l)
    }

    /** The application is in the state that the books `l` record. */
    ghost predicate Valid(l: Ledger)
      reads this, l.loaded, l.Waiting()
    {
      Consistent(l) && Agrees(l)
    }

    method LoadModel(name: string, known: bool, target: Target, ctx: Context, a: Answers, ghost l: Ledger) returns (result: Result)
      requires Valid(l) && Legal(l, Load(ctx, target == Imx500)) && ctx.Blank() && modelCount < UINT32 - 1
      modifies this, ctx
      ensures result == if name == "" || !known then InvalidParam else if Loads(a, target) then Success else Failure
      ensures result == Success ==> Valid(Next(l, Load(ctx, target == Imx500))) && ctx.modelIdx == old(modelCount)
      ensures result != Success ==> Valid(l) && ctx.Blank()
    {
      if name == "" || !known {
        return InvalidParam;
      }
      var ready := OpenContext(ctx, target, a);
      assert Agrees(l);
      if !ready {
        return Failure;
      }
      NextConsistent(l, Load(ctx, target == Imx500));
      Enter(ctx, l);
      return Success;
    }

    method TakeIndex(ctx: Context, ghost l: Ledger)
      requires FlagsMatch(l) && ctx !in l.Held() && modelCount < UINT32 - 1
      modifies this`modelCount, ctx`modelIdx
      ensures FlagsMatch(l) && ctx.modelIdx == old(modelCount) && modelCount == old(modelCount) + 1
    {
      ctx.modelIdx := modelCount;
      modelCount := modelCount + 1;
    }

    method Enter(ctx: Context, ghost l: Ledger)
      requires Agrees(l) && l.onSensor <= l.loaded && ctx !in l.Held()
      requires (ctx.OnSensor() || ctx.OnHost()) && modelCount < UINT32 - 1
      modifies this, ctx`modelIdx
      ensures Agrees(Loaded(l, ctx, ctx.target == Imx500)) && ctx.modelIdx == old(modelCount)
    {
      LoadedTallies(modelCount, log, pendingSensorShutdown, pendingCtx, l, ctx, ctx.target == Imx500);
      if ctx.target == Imx500 {
        log := log + [Started(ctx)];
      }
      TakeIndex(ctx, l);
      LoadedMatches(l, ctx, ctx.target == Imx500);
    }

    /** The context leaves; the last one stops the sensor that waits. */
    method UnloadModel(ctx: Context, ghost l: Ledger)
      requires Valid(l) && Legal(l, Unload(ctx))
      modifies this, ctx, l.Waiting()
      ensures Valid(Next(l, Unload(ctx)))
    {
      NextConsistent(l, Unload(ctx));
      Leave(ctx, l);
      if modelCount == 0 && pendingSensorShutdown && pendingCtx != null && pendingCtx.sensorStream {
        Stop(Released(l, ctx));
      }
    }

    method Leave(ctx: Context, ghost l: Ledger)
      requires Agrees(l) && ctx in l.loaded && l.onSensor <= l.loaded && l.loaded !! l.Waiting()
      modifies this, ctx`graph
      ensures Agrees(Released(l, ctx))
    {
      if ctx.target == Imx500 {
        pendingSensorShutdown := true;
        pendingCtx := ctx;
        modelCount := modelCount - 1;
      }
      if ctx.graph {
        ctx.graph := false;
        modelCount := modelCount - 1;
      }
    }

    method Stop(ghost l: Ledger)
      requires Agrees(l) && l.loaded == {} && l.pending.Some?
      modifies this, pendingCtx
      ensures Agrees(Settled(l)) && old(pendingCtx).Blank()
    {
      log := log + [Stopped(pendingCtx), Closed(pendingCtx)];
      pendingCtx.sensorStream := false;
      pendingCtx.sensorCore := false;
      pendingSensorShutdown := false;
      pendingCtx := null;
    }
  }

  method OpenContext(ctx: Context, target: Target, a: Answers) returns (ready: bool)
    requires ctx.Blank()
    modifies ctx
    ensures ready == Loads(a, target)
    ensures if ready then ctx.target == target && (ctx.OnSensor() || ctx.OnHost()) else ctx.Blank()
  {
    ctx.target := target;
    if target == Imx500 {
      ready := OpenSensor(ctx, a);
    } else {
      ready := OpenGraph(ctx, a);
    }
  }

  method Cleanup(ctx: Context)
    modifies ctx
    ensures ctx.Blank() && ctx.target == old(ctx.target)
  {
    if ctx.sensorStream {
      ctx.sensorStream := false;
    }
    if ctx.sensorCore {
      ctx.sensorCore := false;
    }
    if ctx.graph {
      ctx.graph := false;
    }
  }

  method OpenSensor(ctx: Context, a: Answers) returns (ready: bool)
    requires ctx.Blank() && ctx.target == Imx500
    modifies ctx
    ensures ready == (a.coreAllocated && a.coreOpens && a.streamAllocated && a.streamOpens && a.bundleSet && a.starts)
    ensures if ready then ctx.OnSensor() else ctx.Blank()
  {
    ctx.sensorCore := a.coreAllocated;
    if !ctx.sensorCore || !a.coreOpens {
      Cleanup(ctx);
      return false;
    }
    ctx.sensorStream := a.streamAllocated;
    if !ctx.sensorStream || !a.streamOpens || !a.bundleSet || !a.starts {
      Cleanup(ctx);
      return false;
    }
    return true;
  }

  method OpenGraph(ctx: Context, a: Answers) returns (ready: bool)
    requires ctx.Blank() && ctx.target != Imx500
    modifies ctx
    ensures ctx.target == old(ctx.target)
    ensures ready == (a.modelFound && a.pathFits && a.modelLoads && a.graphAllocated && a.graphInitialised)
    ensures if ready then ctx.OnHost() else ctx.Blank()
  {
    if !a.modelFound || !a.pathFits || !a.modelLoads {
      Cleanup(ctx);
      return false;
    }
    ctx.graph := a.graphAllocated;
    if !ctx.graph {
      return false;
    }
    if !a.graphInitialised {
      Cleanup(ctx);
      return false;
    }
    return true;
  }
}
