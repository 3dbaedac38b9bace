/** The timed GC and DUMP events of the native event handler, and how enabling and disabling the
    watcher starts and stops them. The queue outside hands out events in the order of their due
    times, possibly late. */
module EventLoop {
  import opened Common

  datatype EventId = DUMP | GC

  /** A point in time, in milliseconds. */
  type Time = int

  /** A callback reference; the n-th reference created is number n. */
  type Ref = nat

  /** A JavaScript function called through a reference held by the handler. */
  datatype JsCall = JsCall(id: EventId, ref: Option<Ref>)

  /** The queue, as the due times pending for each event id, with the GC events handleGCTask has sent
      and those a stopped handler has dropped. */
  datatype Queue = Queue(gc: multiset<Time>, dump: multiset<Time>, now: Time, gcSent: nat, gcDropped: nat)

  /** The references the handler holds, the number created, and those deleted so far. */
  datatype Refs = Refs(env: bool, dump: Option<Ref>, gc: Option<Ref>, shutdown: Option<Ref>,
                       created: nat, deleted: seq<Ref>)

  /** The whole state; `enabled` is the script's variable, `calls` the callbacks run so far. */
  datatype Loop = Loop(queue: Queue, refs: Refs, gcDelay: nat, dumpDelay: nat, isRunning: bool, enabled: bool,
                       calls: seq<JsCall>)

  const MIN_CHECK_INTERVAL: nat := 90000
  const DEFAULT_DUMP_WAIT: nat := 5000

  const Initial := Loop(Queue(multiset{}, multiset{}, 0, 0, 0), Refs(false, None, None, None, 0, []),
                        90000, 3000, false, false, [])

  /** What enableLeakWatcher is configured with: a list of kinds, or settings whose two delays may
      be missing. */
  datatype Config = Kinds | Settings(checkInterval: Option<int>, dumpHeapWaitTimeMs: Option<int>)

  // ----- what each operation does -----

  /** The guard of setGcDelayAndDumpDelay; a missing or zero number is falsy. */
  predicate Accepted(cfg: Config)
    requires cfg.Settings?
  {
    && cfg.checkInterval.Some? && cfg.checkInterval.value > MIN_CHECK_INTERVAL
    && cfg.dumpHeapWaitTimeMs.Some? && cfg.dumpHeapWaitTimeMs.value != 0
    && cfg.dumpHeapWaitTimeMs.value < cfg.checkInterval.value
  }

  function WithDelays(s: Loop, cfg: Config): Loop {
    if cfg.Kinds? then s
    else if Accepted(cfg) then
      s.(gcDelay := ToUint32(cfg.checkInterval.value), dumpDelay := ToUint32(cfg.dumpHeapWaitTimeMs.value))
    else s.(gcDelay := MIN_CHECK_INTERVAL, dumpDelay := DEFAULT_DUMP_WAIT)
  }

  function RefList(r: Option<Ref>): seq<Ref> {
    if r.Some? then [r.value] else []
  }

  /** Reset: the references are deleted and forgotten. */
  function ResetRefs(r: Refs): Refs {
    if r.env then
      Refs(true, None, None, None, r.created,
           r.deleted + RefList(r.dump) + RefList(r.gc) + RefList(r.shutdown))
    else r
  }

  function Plus(m: multiset<Time>, t: Time): multiset<Time> {
    m + multiset{t}
  }

  function Minus(m: multiset<Time>, t: Time): multiset<Time> {
    m - multiset{t}
  }

  function Send(q: Queue, id: EventId, delay: nat): Queue {
    if id == GC then Queue(Plus(q.gc, q.now + delay), q.dump, q.now, q.gcSent, q.gcDropped)
    else Queue(q.gc, Plus(q.dump, q.now + delay), q.now, q.gcSent, q.gcDropped)
  }

  function SendFirstGc(q: Queue, delay: nat): Queue {
    Send(q, GC, delay).(gcSent := q.gcSent + 1)
  }

  /** The references once handleGCTask, handleDumpTask and handleShutdownTask have run. */
  function StartRefs(r: Refs): Refs {
    Refs(true, Some(r.created + 1), Some(r.created), Some(r.created + 2), r.created + 3, r.deleted)
  }

  function AfterStart(s: Loop): Loop {
    s.(queue := SendFirstGc(s.queue, s.gcDelay), refs := StartRefs(s.refs), isRunning := true)
  }

  /** enableLeakWatcher; `fails` when it throws or returns before it reaches the handler. */
  function AfterSwitch(s: Loop, on: bool, cfg: Config, fails: bool): Loop {
    if on == s.enabled then s
    else if !on then s.(enabled := false, isRunning := false, refs := ResetRefs(s.refs))
    else
      var configured := WithDelays(s, cfg).(enabled := true);
      if fails then configured else AfterStart(configured)
  }

  /** The queue gives up an event; what a stopped handler gets is dropped. */
  function Take(q: Queue, id: EventId, due: Time, at: Time, dropped: bool): Queue {
    if id == DUMP then Queue(q.gc, Minus(q.dump, due), at, q.gcSent, q.gcDropped)
    else Queue(Minus(q.gc, due), q.dump, at, q.gcSent, q.gcDropped + if dropped then 1 else 0)
  }

  /** ProcessEvent: a GC event is armed again and followed by a DUMP event, both sent at one time. */
  function AfterEvent(s: Loop, id: EventId): Loop {
    if !s.isRunning then s
    else if id == DUMP then s.(calls := s.calls + [JsCall(DUMP, s.refs.dump)])
    else s.(calls := s.calls + [JsCall(GC, s.refs.gc)],
            queue := Send(Send(s.queue, GC, s.gcDelay), DUMP, s.dumpDelay))
  }

  /** The event due at the given time is handled at time `at`. */
  function AfterDispatch(s: Loop, id: EventId, due: Time, at: Time): Loop {
    AfterEvent(s.(queue := Take(s.queue, id, due, at, !s.isRunning)), id)
  }

  /** The queue may hand out this event now: it is due, and nothing is due earlier. */
  predicate CanDispatch(q: Queue, id: EventId, due: Time, at: Time) {
    && due in (if id == GC then q.gc else q.dump)
    && q.now <= at && due <= at
    && (forall t | t in q.gc :: due <= t) && (forall t | t in q.dump :: due <= t)
  }

  // ----- the handler -----

  /** The external queue: sending and giving up events. */
  class EventQueue {
    var gc: multiset<Time>
    var dump: multiset<Time>
    var now: Time
    ghost var gcSent: nat
    ghost var gcDropped: nat

    ghost function Value(): Queue
      reads this
    {
      Queue(gc, dump, now, gcSent, gcDropped)
    }

    constructor ()
      ensures Value() == Initial.queue
    {
      gc, dump, now, gcSent, gcDropped := multiset{}, multiset{}, 0, 0, 0;
    }

    method SendEvent(id: EventId, delay: nat)
      modifies this
      ensures Value() == Send(old(Value()), id, delay)
    {
      hide Plus;
      if id == GC {
        gc := Plus(gc, now + delay);
      } else {
        dump := Plus(dump, now + delay);
      }
    }

    method TakeEvent(id: EventId, due: Time, at: Time, ghost dropped: bool)
      modifies this
      ensures Value() == Take(old(Value()), id, due, at, dropped)
    {
      hide Minus;
      now := at;
      if id == DUMP {
        dump := Minus(dump, due);
      } else {
        gc := Minus(gc, due);
        gcDropped := gcDropped + if dropped then 1 else 0;
      }
    }
  }

  class LeakWatcherEventHandler {
    const queue: EventQueue
    var gcDelayTime: nat
    var dumpDelayTime: nat
    var isRunning: bool
    var enabled: bool  // the module variable of the script
    var env: bool
    var dumpFuncRef: Option<Ref>
    var gcFuncRef: Option<Ref>
    var shutdownFuncRef: Option<Ref>
    var created: nat
    ghost var deleted: seq<Ref>
    ghost var calls: seq<JsCall>

    ghost function RefState(): Refs
      reads this
    {
      Refs(env, dumpFuncRef, gcFuncRef, shutdownFuncRef, created, deleted)
    }

    ghost function State(): Loop
      reads this, queue
    {
      Loop(queue.Value(), RefState(), gcDelayTime, dumpDelayTime, isRunning, enabled, calls)
    }

    constructor ()
      ensures State() == Initial && fresh(queue)
    {
      queue := new EventQueue();
      gcDelayTime, dumpDelayTime, isRunning, enabled, env := 90000, 3000, false, false, false;
      dumpFuncRef, gcFuncRef, shutdownFuncRef, created := None, None, None, 0;
      deleted, calls := [], [];
    }

    method ExecuteJsFunc(id: EventId, callbackRef: Option<Ref>)
      modifies this`calls
      ensures calls == old(calls) + [JsCall(id, callbackRef)]
    {
      calls := calls + [JsCall(id, callbackRef)];
    }

    method ProcessEvent(id: EventId)
      modifies this, queue
      ensures State() == AfterEvent(old(State()), id)
      ensures calls == old(calls) + if !old(isRunning) then []
                                    else [JsCall(id, if id == GC then gcFuncRef else dumpFuncRef)]
    {
      if !isRunning {
        return;
      }
      if id == DUMP {
        ExecuteJsFunc(DUMP, dumpFuncRef);
      } else if id == GC {
        ExecuteJsFunc(GC, gcFuncRef);
        queue.SendEvent(GC, gcDelayTime);
        queue.SendEvent(DUMP, dumpDelayTime);
      }
    }

    /** The queue gives an event to the handler. */
    method Dispatch(id: EventId, due: Time, at: Time)
      requires CanDispatch(queue.Value(), id, due, at)
      modifies this, queue
      ensures State() == AfterDispatch(old(State()), id, due, at)
      ensures queue.now == at
    {
      queue.TakeEvent(id, due, at, !isRunning);
      ProcessEvent(id);
    }

    method Reset()
      modifies this
      ensures State() == old(State()).(refs := ResetRefs(old(RefState())))
    {
      if env && dumpFuncRef.Some? {
        deleted := deleted + [dumpFuncRef.value];
        dumpFuncRef := None;
      }
      if env && gcFuncRef.Some? {
        deleted := deleted + [gcFuncRef.value];
        gcFuncRef := None;
      }
      if env && shutdownFuncRef.Some? {
        deleted := deleted + [shutdownFuncRef.value];
        shutdownFuncRef := None;
      }
    }

    method SetJsLeakWatcherStatus(running: bool)
      modifies this
      ensures State() == old(State()).(isRunning := running,
                                       refs := if running then old(RefState()) else ResetRefs(old(RefState())))
    {
      isRunning := running;
      if !running {
        Reset();
      }
    }

    method CreateReference() returns (ref: Ref)
      modifies this`created
      ensures ref == old(created) && created == ref + 1
    {
      ref := created;
      created := created + 1;
    }

    method HandleGCTask()
      modifies this, queue
      ensures State() == old(State()).(
                refs := old(RefState()).(env := true, gc := Some(old(created)), created := old(created) + 1),
                queue := SendFirstGc(old(queue.Value()), old(gcDelayTime)))
    {
      hide Plus;
      var ref := CreateReference();
      env := true;
      gcFuncRef := Some(ref);
      queue.SendEvent(GC, gcDelayTime);
      queue.gcSent := queue.gcSent + 1;
    }

    method HandleDumpTask()
      modifies this
      ensures State() == old(State()).(
                refs := old(RefState()).(env := true, dump := Some(old(created)), created := old(created) + 1),
                isRunning := true)
    {
      var ref := CreateReference();
      env := true;
      dumpFuncRef := Some(ref);
      SetJsLeakWatcherStatus(true);
    }

    method HandleShutdownTask()
      modifies this
      ensures State() == old(State()).(
                refs := old(RefState()).(env := true, shutdown := Some(old(created)), created := old(created) + 1))
    {
      var ref := CreateReference();
      env := true;
      shutdownFuncRef := Some(ref);
    }

    method SetGcDelayAndDumpDelay(cfg: Config)
      requires cfg.Settings?
      modifies this`gcDelayTime, this`dumpDelayTime
      ensures State() == WithDelays(old(State()), cfg)
    {
      if cfg.checkInterval.Some? && cfg.checkInterval.value > MIN_CHECK_INTERVAL
         && cfg.dumpHeapWaitTimeMs.Some? && cfg.dumpHeapWaitTimeMs.value != 0
         && cfg.dumpHeapWaitTimeMs.value < cfg.checkInterval.value
      {
        gcDelayTime := ToUint32(cfg.checkInterval.value);
        dumpDelayTime := ToUint32(cfg.dumpHeapWaitTimeMs.value);
      } else {
        gcDelayTime := MIN_CHECK_INTERVAL;
        dumpDelayTime := DEFAULT_DUMP_WAIT;
      }
    }

    method EnableLeakWatcher(isEnabled: bool, cfg: Config, fails: bool)
      modifies this, queue
      ensures State() == AfterSwitch(old(State()), isEnabled, cfg, fails)
      ensures enabled == isEnabled
      ensures isEnabled == old(enabled) ==> State() == old(State())
      ensures isEnabled != old(enabled) ==> (isRunning <==> isEnabled && (!fails || old(isRunning)))
      ensures !isEnabled ==> queue.Value() == old(queue.Value()) && calls == old(calls)
      ensures !isEnabled ==> gcDelayTime == old(gcDelayTime) && dumpDelayTime == old(dumpDelayTime)
    {
      if isEnabled == enabled {
        return;
      }
      enabled := isEnabled;
      if !isEnabled {
        SetJsLeakWatcherStatus(false);
        return;
      }
      if cfg.Settings? {
        SetGcDelayAndDumpDelay(cfg);
      }
      assert State() == WithDelays(old(State()), cfg).(enabled := true);
      if fails {
        return;
      }
      ghost var configured := State();
      HandleGCTask();
      HandleDumpTask();
      HandleShutdownTask();
      assert State() == AfterStart(configured);
    }
  }

  // ----- runs -----

  /** `SetEnabled` is the separate `enable` entry point, which leaves the handler alone. */
  datatype Step =
    | Wait(ms: nat)
    | Switch(on: bool, cfg: Config, fails: bool)
    | SetEnabled(on: bool)
    | Dispatch(id: EventId, due: Time, at: Time)

  function Next(s: Loop, step: Step): Loop {
    match step
    case Wait(ms) => s.(queue := s.queue.(now := s.queue.now + ms))
    case Switch(on, cfg, fails) => AfterSwitch(s, on, cfg, fails)
    case SetEnabled(on) => s.(enabled := on)
    case Dispatch(id, due, at) => AfterDispatch(s, id, due, at)
  }

  ghost predicate Allowed(s: Loop, step: Step) {
    step.Dispatch? ==> CanDispatch(s.queue, step.id, step.due, step.at)
  }

  function Run(s: Loop, steps: seq<Step>): Loop
    decreases |steps|
  {
    if steps == [] then s else Next(Run(s, steps[..|steps| - 1]), steps[|steps| - 1])
  }

  ghost predicate AllowedRun(s: Loop, steps: seq<Step>)
    decreases |steps|
  {
    steps == [] ||
    (AllowedRun(s, steps[..|steps| - 1]) && Allowed(Run(s, steps[..|steps| - 1]), steps[|steps| - 1]))
  }

  // ----- the delays -----

  predicate Ordered(s: Loop) {
    s.dumpDelay < s.gcDelay
  }

  /** Settings a caller can rely on: no negative wait, no interval beyond 32 bits. */
  predicate Harmless(cfg: Config) {
    cfg.Settings? && cfg.checkInterval.Some? && cfg.dumpHeapWaitTimeMs.Some? ==>
      0 <= cfg.dumpHeapWaitTimeMs.value && cfg.checkInterval.value < WORD
  }

  /** The dump delay stays below the GC delay exactly when the settings are refused or their two
      numbers stay in order as unsigned 32-bit words. */
  lemma DelaysOrdered(s: Loop, cfg: Config)
    requires Ordered(s)
    ensures Ordered(WithDelays(s, cfg)) <==>
            cfg.Kinds? || !Accepted(cfg)
            || ToUint32(cfg.dumpHeapWaitTimeMs.value) < ToUint32(cfg.checkInterval.value)
    ensures Harmless(cfg) ==> Ordered(WithDelays(s, cfg))
  {}

  /** The delays in milliseconds, for settings without surprises: those asked for if the interval is more
      than a minute and a half and the wait shorter than it, and 90000 and 5000 otherwise. */
  lemma DelaysInMilliseconds(s: Loop, c: int, d: int)
    requires c < 0x1_0000_0000 && 0 <= d
    ensures var t := WithDelays(s, Settings(Some(c), Some(d)));
            (t.gcDelay, t.dumpDelay) == if c > 90000 && 0 < d < c then (c, d) else (90000, 5000)
    ensures forall cfg: Config | cfg.Settings? && (cfg.checkInterval.None? || cfg.dumpHeapWaitTimeMs.None?) ::
              var t := WithDelays(s, cfg); (t.gcDelay, t.dumpDelay) == (90000, 5000)
    ensures WithDelays(s, Kinds) == s
  {}

  /** A negative wait time passes the guard and becomes the longer delay. */
  lemma NegativeWaitDisorders()
    ensures !Ordered(WithDelays(Initial, Settings(Some(100000), Some(-1))))
  {}

  /** An interval of 2^32 passes it and becomes no delay at all. */
  lemma LongIntervalDisorders()
    ensures !Ordered(WithDelays(Initial, Settings(Some(WORD), Some(5000))))
  {}

  // ----- the life of callback references -----

  function Holds(r: Option<Ref>, ref: Ref): nat {
    if r == Some(ref) then 1 else 0
  }

  /** How often a reference has been deleted or is held. */
  function Count(r: Refs, ref: Ref): nat {
    multiset(r.deleted)[ref] + Holds(r.dump, ref) + Holds(r.gc, ref) + Holds(r.shutdown, ref)
  }

  /** Every reference created has been deleted exactly once or is still held. */
  ghost predicate Accounted(r: Refs) {
    forall ref | 0 <= ref < r.created :: Count(r, ref) == 1
  }

  ghost predicate RefsInv(r: Refs, isRunning: bool) {
    && (isRunning <==> r.gc.Some?) && (isRunning <==> r.dump.Some?) && (isRunning <==> r.shutdown.Some?)
    && (isRunning ==> r.env)
    && (forall ref: Ref :: Count(r, ref) <= if ref < r.created then 1 else 0)
  }

  /** A running handler holds its callbacks, and has called nothing but callbacks. */
  ghost predicate RefInv(s: Loop) {
    RefsInv(s.refs, s.isRunning) && forall c | c in s.calls :: c.ref.Some?
  }

  /** A start that writes over references still held: they are lost. */
  predicate Overwrites(s: Loop, step: Step) {
    step.Switch? && step.on && !step.fails && !s.enabled && s.isRunning
  }

  lemma ResetKeeps(r: Refs, isRunning: bool)
    requires RefsInv(r, isRunning)
    ensures RefsInv(ResetRefs(r), false) && (Accounted(ResetRefs(r)) <==> Accounted(r))
  {
    forall ref: Ref ensures Count(ResetRefs(r), ref) == Count(r, ref) {
      forall o: Option<Ref> ensures multiset(RefList(o))[ref] == Holds(o, ref) {}
      if r.env {
        assert multiset(ResetRefs(r).deleted) == multiset(r.deleted) + multiset(RefList(r.dump))
                                                 + multiset(RefList(r.gc)) + multiset(RefList(r.shutdown));
      }
    }
  }

  lemma StartCounts(r: Refs, isRunning: bool)
    requires RefsInv(r, isRunning)
    ensures RefsInv(StartRefs(r), true) && (Accounted(StartRefs(r)) <==> Accounted(r) && !isRunning)
  {
    var n, t := r.created, StartRefs(r);
    forall ref: Ref
      ensures Count(t, ref) == multiset(r.deleted)[ref] + if n <= ref < n + 3 then 1 else 0
      ensures Count(r, ref) <= if ref < n then 1 else 0
    {}
    if isRunning {
      assert Count(r, r.gc.value) <= 1;
      assert Count(t, r.gc.value) == 0;
    } else {
      forall ref | 0 <= ref < n ensures Count(t, ref) == Count(r, ref) {}
    }
  }

  lemma RefStep(s: Loop, step: Step)
    requires RefInv(s)
    ensures RefInv(Next(s, step))
    ensures Accounted(Next(s, step).refs) <==> Accounted(s.refs) && !Overwrites(s, step)
  {
    hide RefsInv, Accounted;
    match step
    case Switch(on, cfg, fails) =>
      ResetKeeps(s.refs, s.isRunning);
      StartCounts(s.refs, s.isRunning);
    case Dispatch(_, _, _) =>
      if s.isRunning {
        RunningHoldsRefs(s);
      }
    case _ =>
  }

  lemma RunningHoldsRefs(s: Loop)
    requires RefInv(s) && s.isRunning
    ensures s.refs.gc.Some? && s.refs.dump.Some?
  {}

  /** Over any run, the `enable` entry point included: a running handler holds its callbacks, every
      call goes through a reference, and each reference created is deleted exactly once or still
      held, if and only if the watcher was never started while its handler was running. */
  lemma {:induction false} ReferenceLifeCycle(steps: seq<Step>)
    ensures RefInv(Run(Initial, steps))
    ensures Accounted(Run(Initial, steps).refs) <==>
            forall i | 0 <= i < |steps| :: !Overwrites(Run(Initial, steps[..i]), steps[i])
    decreases |steps|
  {
    hide Next, Accounted, Overwrites, RefInv;
    if steps == [] {
      NothingCreated();
    } else {
      var last := |steps| - 1;
      ReferenceLifeCycle(steps[..last]);
      RefStep(Run(Initial, steps[..last]), steps[last]);
      forall i | 0 <= i < last ensures steps[..last][..i] == steps[..i] && steps[..last][i] == steps[i] {}
    }
  }

  lemma NothingCreated()
    ensures RefInv(Initial) && Accounted(Initial.refs)
  {}

  /** Without the `enable` entry point that never happens. */
  lemma {:induction false} EnableLeakWatcherLosesNothing(steps: seq<Step>)
    requires forall i | 0 <= i < |steps| :: !steps[i].SetEnabled?
    ensures Accounted(Run(Initial, steps).refs)
    ensures Run(Initial, steps).isRunning ==> Run(Initial, steps).enabled
    decreases |steps|
  {
    hide Accounted, RefInv, Next;
    if steps == [] {
      NothingCreated();
    } else {
      var last := |steps| - 1;
      var s := Run(Initial, steps[..last]);
      EnableLeakWatcherLosesNothing(steps[..last]);
      ReferenceLifeCycle(steps[..last]);
      RefStep(s, steps[last]);
      RunningStaysEnabled(s, steps[last]);
    }
  }

  lemma RunningStaysEnabled(s: Loop, step: Step)
    requires (s.isRunning ==> s.enabled) && !step.SetEnabled?
    ensures !Overwrites(s, step) && (Next(s, step).isRunning ==> Next(s, step).enabled)
  {}

  /** With it, it does: `enable(false)` leaves the handler running with its references held, and the
      next start loses them. */
  lemma EnableEntryLosesReferences(cfg: Config)
    ensures !Accounted(Next(Next(Next(Initial, Switch(true, cfg, false)), SetEnabled(false)),
                            Switch(true, cfg, false)).refs)
  {
    hide Accounted, RefInv;
    var s1 := Next(Initial, Switch(true, cfg, false));
    var s2 := Next(s1, SetEnabled(false));
    NothingCreated();
    RefStep(Initial, Switch(true, cfg, false));
    RefStep(s1, SetEnabled(false));
    RefStep(s2, Switch(true, cfg, false));
  }

  // ----- which callback runs -----

  predicate StartsHandler(s: Loop, step: Step) {
    step.Switch? && step.on && !step.fails && !s.enabled
  }

  /** The starts of the handler in a run. */
  function Starts(s: Loop, steps: seq<Step>): nat
    decreases |steps|
  {
    if steps == [] then 0
    else
      var front := steps[..|steps| - 1];
      Starts(s, front) + if StartsHandler(Run(s, front), steps[|steps| - 1]) then 1 else 0
  }

  /** Each start creates three references: for GC, for DUMP and for shutdown, in this order. */
  function CallbackOf(starts: nat, id: EventId): Option<Ref> {
    if starts == 0 then None else Some(3 * (starts - 1) + if id == GC then 0 else 1)
  }

  /** The handler holds the callbacks of its n-th start. */
  predicate HoldsLatest(s: Loop, n: nat) {
    && s.refs.created == 3 * n
    && (s.isRunning ==> n > 0 && s.refs.gc == CallbackOf(n, GC) && s.refs.dump == CallbackOf(n, DUMP))
  }

  lemma CallbackStep(s: Loop, step: Step, n: nat)
    requires HoldsLatest(s, n)
    ensures HoldsLatest(Next(s, step), n + if StartsHandler(s, step) then 1 else 0)
    ensures Next(s, step).calls ==
            s.calls + if step.Dispatch? && s.isRunning then [JsCall(step.id, CallbackOf(n, step.id))] else []
  {
    hide WithDelays, Send, Take;
    WithDelaysKeeps(s, if step.Switch? then step.cfg else Kinds);
  }

  lemma WithDelaysKeeps(s: Loop, cfg: Config)
    ensures var t := WithDelays(s, cfg);
            t.refs == s.refs && t.calls == s.calls && t.queue == s.queue && t.isRunning == s.isRunning
  {}

  lemma {:induction false} HoldsLatestStart(steps: seq<Step>)
    ensures HoldsLatest(Run(Initial, steps), Starts(Initial, steps))
    decreases |steps|
  {
    hide HoldsLatest, Next, StartsHandler;
    if steps == [] {
      NoStartYet();
    } else {
      var front := steps[..|steps| - 1];
      HoldsLatestStart(front);
      CallbackStep(Run(Initial, front), steps[|steps| - 1], Starts(Initial, front));
    }
  }

  lemma NoStartYet()
    ensures HoldsLatest(Initial, 0)
  {}

  /** Over every run: a running handler that gets an event calls, once, the callback that its latest start was
      given for events of that id; a stopped one calls nothing, and no other step does. */
  lemma EventsRunTheirCallback(steps: seq<Step>, step: Step)
    ensures var s := Run(Initial, steps);
            && Next(s, step).calls ==
               s.calls + (if step.Dispatch? && s.isRunning
                          then [JsCall(step.id, CallbackOf(Starts(Initial, steps), step.id))] else [])
            && (s.isRunning ==> Starts(Initial, steps) > 0)
  {
    HoldsLatestStart(steps);
    hide Run, Starts, Next, CallbackOf;
    CallbackStep(Run(Initial, steps), step, Starts(Initial, steps));
  }

  /** So each callback run so far is of the kind its reference was created for. */
  lemma {:induction false} CallsAreOfTheirKind(steps: seq<Step>)
    ensures forall c | c in Run(Initial, steps).calls ::
              c.ref.Some? && c.ref.value % 3 == if c.id == GC then 0 else 1
    decreases |steps|
  {
    if steps != [] {
      hide Next, Starts;
      var front := steps[..|steps| - 1];
      CallsAreOfTheirKind(front);
      EventsRunTheirCallback(front, steps[|steps| - 1]);
    }
  }

  // ----- after a stop -----

  function Dispatches(steps: seq<Step>): nat {
    if steps == [] then 0 else Dispatches(steps[..|steps| - 1]) + if steps[|steps| - 1].Dispatch? then 1 else 0
  }

  /** A stop makes the handler silent and its queue drain: until the next start no callback runs,
      nothing is sent, and each dispatch takes one pending event away. */
  lemma {:induction false} StoppedDrains(s: Loop, steps: seq<Step>)
    requires !s.isRunning && AllowedRun(s, steps)
    requires forall i | 0 <= i < |steps| :: steps[i].Switch? ==> !steps[i].on || steps[i].fails
    ensures !Run(s, steps).isRunning && Run(s, steps).calls == s.calls
    ensures var q := Run(s, steps).queue;
            && q.gcSent == s.queue.gcSent && q.gc <= s.queue.gc && q.dump <= s.queue.dump
            && |q.gc| + |q.dump| + Dispatches(steps) == |s.queue.gc| + |s.queue.dump|
    decreases |steps|
  {
    if steps != [] {
      hide Next;
      var last := |steps| - 1;
      StoppedDrains(s, steps[..last]);
      StoppedStep(Run(s, steps[..last]), steps[last]);
    }
  }

  lemma StoppedStep(s: Loop, step: Step)
    requires !s.isRunning && Allowed(s, step) && (step.Switch? ==> !step.on || step.fails)
    ensures !Next(s, step).isRunning && Next(s, step).calls == s.calls
    ensures var q := Next(s, step).queue;
            && q.gcSent == s.queue.gcSent && q.gc <= s.queue.gc && q.dump <= s.queue.dump
            && |q.gc| + |q.dump| + (if step.Dispatch? then 1 else 0) == |s.queue.gc| + |s.queue.dump|
  {
    if step.Dispatch? {
      TakesOne(s.queue, step.id, step.due, step.at);
      hide Take, CanDispatch;
    }
  }

  lemma TakesOne(q: Queue, id: EventId, due: Time, at: Time)
    requires CanDispatch(q, id, due, at)
    ensures var t := Take(q, id, due, at, true);
            && t.gcSent == q.gcSent && t.gc <= q.gc && t.dump <= q.dump
            && |t.gc| + |t.dump| + 1 == |q.gc| + |q.dump|
  {}

  // ----- conservation of events -----

  /** Over any run of starts, stops and dispatches, the GC events pending are the ones sent by
      handleGCTask that have not been dropped by a stopped handler. */
  lemma {:induction false} GcEventsConserved(steps: seq<Step>)
    requires AllowedRun(Initial, steps)
    ensures var q := Run(Initial, steps).queue; |q.gc| + q.gcDropped == q.gcSent
    decreases |steps|
  {
    if steps != [] {
      hide Next;
      GcEventsConserved(steps[..|steps| - 1]);
      GcStep(Run(Initial, steps[..|steps| - 1]), steps[|steps| - 1]);
    }
  }

  lemma GcStep(s: Loop, step: Step)
    requires Allowed(s, step)
    ensures var q, q' := s.queue, Next(s, step).queue;
            |q'.gc| + q'.gcDropped - q'.gcSent == |q.gc| + q.gcDropped - q.gcSent
  {
    match step
    case Dispatch(id, due, at) =>
      TakeCounts(s.queue, id, due, at, !s.isRunning);
      hide Take, CanDispatch;
      if s.isRunning && id == GC {
        SendCounts(Take(s.queue, id, due, at, !s.isRunning), s.gcDelay, s.dumpDelay);
        hide Send;
      }
    case Switch(_, _, _) =>
    case _ =>
  }

  lemma TakeCounts(q: Queue, id: EventId, due: Time, at: Time, dropped: bool)
    requires CanDispatch(q, id, due, at)
    ensures var t := Take(q, id, due, at, dropped);
            && |t.gc| == |q.gc| - (if id == GC then 1 else 0) && t.gcSent == q.gcSent
            && t.gcDropped == q.gcDropped + (if id == GC && dropped then 1 else 0)
  {}

  lemma SendCounts(q: Queue, gcDelay: nat, dumpDelay: nat)
    ensures var t := Send(Send(q, GC, gcDelay), DUMP, dumpDelay);
            |t.gc| == |q.gc| + 1 && t.gcSent == q.gcSent && t.gcDropped == q.gcDropped
  {}

  /** Each pending DUMP event has its own GC event, due a fixed time later. */
  ghost predicate DumpsShadowGcs(q: Queue, gap: nat) {
    forall t: Time :: q.dump[t] <= q.gc[t + gap]
  }

  /** With constant delays in order, over any run: the due times of pending DUMP events, moved by
      gcDelay - dumpDelay, are a sub-multiset of the due times of pending GC events. */
  lemma {:induction false} PendingDumpsShadowGcs(s: Loop, steps: seq<Step>, gc: nat, dump: nat)
    requires AllowedRun(s, steps) && dump < gc && DumpsShadowGcs(s.queue, gc - dump)
    requires forall i | 0 <= i <= |steps| :: Run(s, steps[..i]).gcDelay == gc && Run(s, steps[..i]).dumpDelay == dump
    ensures DumpsShadowGcs(Run(s, steps).queue, gc - dump)
    decreases |steps|
  {
    hide DumpsShadowGcs, Next;
    if steps != [] {
      var last := |steps| - 1;
      forall i | 0 <= i <= last ensures steps[..last][..i] == steps[..i] {}
      PendingDumpsShadowGcs(s, steps[..last], gc, dump);
      assert steps[..last + 1] == steps;
      ShadowStep(Run(s, steps[..last]), steps[last], gc, dump);
    }
  }

  lemma ShadowStep(s: Loop, step: Step, gc: nat, dump: nat)
    requires Allowed(s, step) && dump < gc && DumpsShadowGcs(s.queue, gc - dump)
    requires s.gcDelay == gc && s.dumpDelay == dump
    requires Next(s, step).gcDelay == gc
    ensures DumpsShadowGcs(Next(s, step).queue, gc - dump)
  {
    match step
    case Dispatch(id, due, at) =>
      ShadowTake(s.queue, id, due, at, !s.isRunning, gc - dump);
      var taken := Take(s.queue, id, due, at, !s.isRunning);
      if s.isRunning && id == GC {
        ShadowSend(taken, gc, dump);
      }
    case _ => SwitchOnlyAddsGcs(s, step);
  }

  lemma ShadowTake(q: Queue, id: EventId, due: Time, at: Time, dropped: bool, gap: nat)
    requires DumpsShadowGcs(q, gap) && CanDispatch(q, id, due, at) && gap > 0
    ensures DumpsShadowGcs(Take(q, id, due, at, dropped), gap)
  {
    hide CanDispatch, Take;
    var taken := Take(q, id, due, at, dropped);
    NothingEarlier(q, id, due, at);
    forall t: Time ensures taken.dump[t] <= taken.gc[t + gap] {
      assert q.dump[t] <= q.gc[t + gap];
      TakeLeaves(q, id, due, at, dropped, t, t + gap);
      if id == GC && t + gap == due {
        assert q.dump[t] == 0;
      }
    }
  }

  lemma TakeLeaves(q: Queue, id: EventId, due: Time, at: Time, dropped: bool, t: Time, u: Time)
    ensures Take(q, id, due, at, dropped).dump[t] <= q.dump[t]
    ensures Take(q, id, due, at, dropped).gc[u] + (if id == GC && u == due then 1 else 0) >= q.gc[u]
  {}

  lemma NothingEarlier(q: Queue, id: EventId, due: Time, at: Time)
    requires CanDispatch(q, id, due, at)
    ensures forall t: Time | t < due :: q.dump[t] == 0
  {
    forall t: Time | t < due ensures q.dump[t] == 0 {
      assert t !in q.dump;
    }
  }

  lemma ShadowSend(q: Queue, gc: nat, dump: nat)
    requires dump < gc && DumpsShadowGcs(q, gc - dump)
    ensures DumpsShadowGcs(Send(Send(q, GC, gc), DUMP, dump), gc - dump)
  {
    var sent := Send(Send(q, GC, gc), DUMP, dump);
    forall t: Time ensures sent.dump[t] <= sent.gc[t + (gc - dump)] {
      assert q.dump[t] <= q.gc[t + (gc - dump)];
    }
  }

  lemma SwitchOnlyAddsGcs(s: Loop, step: Step)
    requires !step.Dispatch?
    ensures Next(s, step).queue.dump == s.queue.dump && s.queue.gc <= Next(s, step).queue.gc
  {}

  // ----- sessions -----

  /** A step that neither stops the watcher nor lets it start twice. */
  predicate KeepsSession(step: Step) {
    step.Wait? || step.Dispatch? || (step.Switch? && step.on)
  }

  /** The calls of a session: GC and DUMP by turns, GC first. */
  ghost predicate Alternates(calls: seq<JsCall>) {
    forall i | 0 <= i < |calls| :: calls[i].id == if i % 2 == 0 then GC else DUMP
  }

  ghost predicate Pending(q: Queue, gc: Time, dump: Option<Time>) {
    && q.gc == multiset{gc}
    && q.dump == (if dump.Some? then multiset{dump.value} else multiset{})
    && (dump.Some? ==> dump.value < gc)
  }

  /** One GC event pending, and after an odd number of calls one DUMP event, due before it. */
  ghost predicate OneRound(q: Queue, calls: nat) {
    exists gc, dump :: Pending(q, gc, dump) && (dump.Some? <==> calls % 2 == 1)
  }

  /** How the queue and the calls of a session stand, `done` being the calls before it. */
  ghost predicate SessionInv(s: Loop, done: seq<JsCall>) {
    && s.isRunning && s.enabled && Ordered(s)
    && done <= s.calls && Alternates(s.calls[|done|..])
    && OneRound(s.queue, |s.calls| - |done|)
  }

  lemma PendingStep(q: Queue, gc: Time, dump: Option<Time>, id: EventId, due: Time, at: Time)
    requires Pending(q, gc, dump) && CanDispatch(q, id, due, at)
    ensures id == (if dump.Some? then DUMP else GC) && due == (if dump.Some? then dump.value else gc)
  {
    assert gc in q.gc;
    if dump.Some? {
      assert dump.value in q.dump;
    }
  }

  /** The only event that can be dispatched is the one whose turn it is. */
  lemma RoundStep(q: Queue, calls: nat, id: EventId, due: Time, at: Time, gcDelay: nat, dumpDelay: nat)
    requires OneRound(q, calls) && CanDispatch(q, id, due, at) && dumpDelay < gcDelay
    ensures id == if calls % 2 == 0 then GC else DUMP
    ensures var taken := Take(q, id, due, at, false);
            OneRound(if id == DUMP then taken else Send(Send(taken, GC, gcDelay), DUMP, dumpDelay), calls + 1)
  {
    hide CanDispatch, Take, Send, Pending;
    var gc, dump :| Pending(q, gc, dump) && (dump.Some? <==> calls % 2 == 1);
    PendingStep(q, gc, dump, id, due, at);
    hide OneRound;
    if dump.Some? {
      DumpEndsRound(q, gc, dump.value, at, calls);
    } else {
      GcStartsRound(q, gc, at, gcDelay, dumpDelay, calls);
    }
  }

  lemma IsRound(q: Queue, gc: Time, dump: Option<Time>, calls: nat)
    requires Pending(q, gc, dump) && (dump.Some? <==> calls % 2 == 1)
    ensures OneRound(q, calls)
  {}

  lemma DumpEndsRound(q: Queue, gc: Time, dump: Time, at: Time, calls: nat)
    requires Pending(q, gc, Some(dump)) && calls % 2 == 1
    ensures OneRound(Take(q, DUMP, dump, at, false), calls + 1)
  {
    assert multiset{dump} - multiset{dump} == multiset{};
    IsRound(Take(q, DUMP, dump, at, false), gc, None, calls + 1);
  }

  lemma GcStartsRound(q: Queue, gc: Time, at: Time, gcDelay: nat, dumpDelay: nat, calls: nat)
    requires Pending(q, gc, None) && calls % 2 == 0 && dumpDelay < gcDelay
    ensures OneRound(Send(Send(Take(q, GC, gc, at, false), GC, gcDelay), DUMP, dumpDelay), calls + 1)
  {
    hide OneRound;
    assert multiset{gc} - multiset{gc} == multiset{};
    assert multiset{} + multiset{at + gcDelay} == multiset{at + gcDelay};
    assert multiset{} + multiset{at + dumpDelay} == multiset{at + dumpDelay};
    IsRound(Send(Send(Take(q, GC, gc, at, false), GC, gcDelay), DUMP, dumpDelay),
            at + gcDelay, Some(at + dumpDelay), calls + 1);
  }

  lemma SessionStep(s: Loop, step: Step, done: seq<JsCall>)
    requires SessionInv(s, done) && KeepsSession(step) && Allowed(s, step)
    ensures SessionInv(Next(s, step), done)
  {
    hide CanDispatch, Take, Send, OneRound, Alternates;
    match step
    case Dispatch(id, due, at) =>
      RoundStep(s.queue, |s.calls| - |done|, id, due, at, s.gcDelay, s.dumpDelay);
      OneMoreCall(s.calls, done, Next(s, step).calls[|s.calls|]);
    case Wait(ms) =>
      WaitKeepsRound(s.queue, |s.calls| - |done|, ms);
    case _ =>
  }

  lemma OneMoreCall(calls: seq<JsCall>, done: seq<JsCall>, call: JsCall)
    requires done <= calls && Alternates(calls[|done|..])
    requires call.id == if (|calls| - |done|) % 2 == 0 then GC else DUMP
    ensures Alternates((calls + [call])[|done|..])
  {
    assert (calls + [call])[|done|..] == calls[|done|..] + [call];
  }

  lemma WaitKeepsRound(q: Queue, calls: nat, ms: nat)
    requires OneRound(q, calls)
    ensures OneRound(q.(now := q.now + ms), calls)
  {
    var gc, dump :| Pending(q, gc, dump) && (dump.Some? <==> calls % 2 == 1);
    assert Pending(q.(now := q.now + ms), gc, dump);
  }

  /** A session that starts on an empty queue with the delays in order: in every state exactly one GC
      and at most one DUMP event are pending, the DUMP due first, and GC and DUMP callbacks strictly
      alternate however late events are dispatched. */
  lemma {:induction false} GcAndDumpAlternate(s: Loop, cfg: Config, steps: seq<Step>)
    requires !s.enabled && s.queue.gc == multiset{} && s.queue.dump == multiset{}
    requires Ordered(WithDelays(s, cfg))
    requires AllowedRun(AfterSwitch(s, true, cfg, false), steps)
    requires forall i | 0 <= i < |steps| :: KeepsSession(steps[i])
    ensures SessionInv(Run(AfterSwitch(s, true, cfg, false), steps), s.calls)
    decreases |steps|
  {
    var start := AfterSwitch(s, true, cfg, false);
    if steps == [] {
      assert Pending(start.queue, start.queue.now + start.gcDelay, None);
    } else {
      hide SessionInv, Next, AfterSwitch;
      GcAndDumpAlternate(s, cfg, steps[..|steps| - 1]);
      SessionStep(Run(start, steps[..|steps| - 1]), steps[|steps| - 1], s.calls);
    }
  }

  /** When a session last ran its GC callback, or else when it started. */
  function LastGc(start: Loop, steps: seq<Step>): Time
    decreases |steps|
  {
    if steps == [] then start.queue.now
    else
      var step := steps[|steps| - 1];
      if step.Dispatch? && step.id == GC then step.at else LastGc(start, steps[..|steps| - 1])
  }

  /** The GC event pending is due gcDelay after the last GC callback, a DUMP event dumpDelay after it. */
  ghost predicate OnTime(s: Loop, gcDelay: nat, dumpDelay: nat, last: Time) {
    && s.isRunning && s.enabled && s.gcDelay == gcDelay && s.dumpDelay == dumpDelay
    && QueueOnTime(s.queue, gcDelay, dumpDelay, last)
  }

  ghost predicate QueueOnTime(q: Queue, gcDelay: nat, dumpDelay: nat, last: Time) {
    q.gc == multiset{last + gcDelay} && q.dump <= multiset{last + dumpDelay}
  }

  /** Such a session keeps time: the GC event pending is due gcDelay after the last GC callback (or the start),
      the DUMP event dumpDelay after it; so callbacks never come sooner than that. */
  lemma {:induction false} SessionKeepsTime(s: Loop, cfg: Config, steps: seq<Step>)
    requires !s.enabled && s.queue.gc == multiset{} && s.queue.dump == multiset{}
    requires Ordered(WithDelays(s, cfg)) && SessionRun(s, cfg, steps)
    ensures var start, delays := AfterSwitch(s, true, cfg, false), WithDelays(s, cfg);
            OnTime(Run(start, steps), delays.gcDelay, delays.dumpDelay, LastGc(start, steps))
    decreases |steps|
  {
    hide AfterSwitch, WithDelays, Next, Allowed, KeepsSession, OnTime;
    var start := AfterSwitch(s, true, cfg, false);
    if steps != [] {
      var front, step := steps[..|steps| - 1], steps[|steps| - 1];
      assert forall i | 0 <= i < |front| :: front[i] == steps[i];
      assert KeepsSession(steps[|steps| - 1]);
      SessionKeepsTime(s, cfg, front);
      var delays := WithDelays(s, cfg);
      TimeStep(Run(start, front), step, delays.gcDelay, delays.dumpDelay, LastGc(start, front));
    } else {
      StartOnTime(s, cfg);
    }
  }

  /** A first start with a list of kinds: GC callbacks a minute and a half apart, DUMP three seconds later. */
  lemma FirstSessionKeepsTime(steps: seq<Step>)
    requires SessionRun(Initial, Kinds, steps)
    ensures var start := AfterSwitch(Initial, true, Kinds, false);
            OnTime(Run(start, steps), 90000, 3000, LastGc(start, steps))
  {
    hide Run, AllowedRun, OnTime, LastGc;
    SessionKeepsTime(Initial, Kinds, steps);
  }

  lemma StartOnTime(s: Loop, cfg: Config)
    requires !s.enabled && s.queue.gc == multiset{} && s.queue.dump == multiset{}
    ensures OnTime(AfterSwitch(s, true, cfg, false), WithDelays(s, cfg).gcDelay, WithDelays(s, cfg).dumpDelay,
                   s.queue.now)
    ensures AfterSwitch(s, true, cfg, false).queue.now == s.queue.now
  {
    StartQueue(s, cfg);
    StartDelays(s, cfg);
    hide AfterSwitch, WithDelays;
  }

  lemma TimeStep(s: Loop, step: Step, gcDelay: nat, dumpDelay: nat, last: Time)
    requires OnTime(s, gcDelay, dumpDelay, last) && dumpDelay < gcDelay && KeepsSession(step) && Allowed(s, step)
    ensures OnTime(Next(s, step), gcDelay, dumpDelay, if step.Dispatch? && step.id == GC then step.at else last)
  {
    hide CanDispatch, Take, Send, QueueOnTime;
    match step
    case Dispatch(id, due, at) =>
      if id == GC {
        GcOnTime(s.queue, due, at, gcDelay, dumpDelay, last);
      } else {
        DumpOnTime(s.queue, due, at, gcDelay, dumpDelay, last);
      }
    case Wait(ms) => WaitOnTime(s.queue, gcDelay, dumpDelay, last, ms);
    case _ =>
  }

  lemma GcOnTime(q: Queue, due: Time, at: Time, gcDelay: nat, dumpDelay: nat, last: Time)
    requires QueueOnTime(q, gcDelay, dumpDelay, last) && CanDispatch(q, GC, due, at) && dumpDelay < gcDelay
    ensures QueueOnTime(Send(Send(Take(q, GC, due, at, false), GC, gcDelay), DUMP, dumpDelay), gcDelay, dumpDelay, at)
  {
    assert last + dumpDelay !in q.dump;
    assert q.dump == multiset{};
    assert q.gc - multiset{due} == multiset{};
  }

  lemma DumpOnTime(q: Queue, due: Time, at: Time, gcDelay: nat, dumpDelay: nat, last: Time)
    requires QueueOnTime(q, gcDelay, dumpDelay, last)
    ensures QueueOnTime(Take(q, DUMP, due, at, false), gcDelay, dumpDelay, last)
  {}

  lemma WaitOnTime(q: Queue, gcDelay: nat, dumpDelay: nat, last: Time, ms: nat)
    requires QueueOnTime(q, gcDelay, dumpDelay, last)
    ensures QueueOnTime(q.(now := q.now + ms), gcDelay, dumpDelay, last)
  {}

  lemma StartDelays(s: Loop, cfg: Config)
    requires !s.enabled
    ensures var t, u := AfterSwitch(s, true, cfg, false), WithDelays(s, cfg);
            t.enabled && t.gcDelay == u.gcDelay && t.dumpDelay == u.dumpDelay && t.queue.now == s.queue.now
  {}

  /** Started on any queue, a session always has one GC event more pending than were left over: it
      has exactly one if and only if none was. */
  lemma {:induction false} LeftoverGcsStay(s: Loop, cfg: Config, steps: seq<Step>)
    requires !s.enabled
    requires AllowedRun(AfterSwitch(s, true, cfg, false), steps)
    requires forall i | 0 <= i < |steps| :: KeepsSession(steps[i])
    ensures var t := Run(AfterSwitch(s, true, cfg, false), steps);
            t.isRunning && t.enabled && |t.queue.gc| == |s.queue.gc| + 1
    ensures |Run(AfterSwitch(s, true, cfg, false), steps).queue.gc| == 1 <==> s.queue.gc == multiset{}
    decreases |steps|
  {
    if steps != [] {
      hide Next, AfterSwitch;
      var start := AfterSwitch(s, true, cfg, false);
      LeftoverGcsStay(s, cfg, steps[..|steps| - 1]);
      RunningKeepsGcCount(Run(start, steps[..|steps| - 1]), steps[|steps| - 1]);
    }
  }

  lemma RunningKeepsGcCount(s: Loop, step: Step)
    requires s.isRunning && s.enabled && KeepsSession(step) && Allowed(s, step)
    ensures var t := Next(s, step); t.isRunning && t.enabled && |t.queue.gc| == |s.queue.gc|
  {}

  /** Started, stopped and started again at once, the handler has two chains of GC events. */
  lemma RestartLeavesTwoChains(cfg: Config)
    ensures var s := Next(Next(Next(Initial, Switch(true, cfg, false)), Switch(false, cfg, false)),
                          Switch(true, cfg, false));
            s.isRunning && |s.queue.gc| == 2
  {
    var s1 := Next(Initial, Switch(true, cfg, false));
    assert |s1.queue.gc| == 1;
  }

  /** Exactly one GC and at most one DUMP event pending, and callbacks by turns, GC first. */
  ghost predicate TakesTurns(s: Loop, done: seq<JsCall>) {
    |s.queue.gc| == 1 && |s.queue.dump| <= 1 && done <= s.calls && Alternates(s.calls[|done|..])
  }

  ghost predicate SessionRun(s: Loop, cfg: Config, steps: seq<Step>) {
    AllowedRun(AfterSwitch(s, true, cfg, false), steps) && forall i | 0 <= i < |steps| :: KeepsSession(steps[i])
  }

  /** In every run of the session that starts here. */
  ghost predicate AlwaysTakesTurns(s: Loop, cfg: Config) {
    forall steps | SessionRun(s, cfg, steps) :: TakesTurns(Run(AfterSwitch(s, true, cfg, false), steps), s.calls)
  }

  /** All runs of a session take turns if and only if it starts on an empty queue with the delays in order:
      a leftover event, or a dump delay not below the GC delay, breaks the alternation in some run. */
  lemma AlternationExactly(s: Loop, cfg: Config)
    requires !s.enabled
    ensures AlwaysTakesTurns(s, cfg) <==>
            s.queue.gc == multiset{} && s.queue.dump == multiset{} && Ordered(WithDelays(s, cfg))
  {
    hide AllowedRun, KeepsSession, AfterSwitch;
    if s.queue.gc == multiset{} && s.queue.dump == multiset{} && Ordered(WithDelays(s, cfg)) {
      forall steps | SessionRun(s, cfg, steps)
        ensures TakesTurns(Run(AfterSwitch(s, true, cfg, false), steps), s.calls)
      {
        GcAndDumpAlternate(s, cfg, steps);
        SessionTakesTurns(Run(AfterSwitch(s, true, cfg, false), steps), s.calls);
      }
    } else {
      hide TakesTurns, SessionRun;
      var steps := SomeRunBreaksTurns(s, cfg);
    }
  }

  lemma SessionTakesTurns(s: Loop, done: seq<JsCall>)
    requires SessionInv(s, done)
    ensures TakesTurns(s, done)
  {}

  lemma RunOneMore(s: Loop, steps: seq<Step>, step: Step)
    ensures Run(s, steps + [step]) == Next(Run(s, steps), step)
    ensures AllowedRun(s, steps + [step]) <==> AllowedRun(s, steps) && Allowed(Run(s, steps), step)
  {
    hide Next, Allowed;
    assert (steps + [step])[..|steps|] == steps;
  }

  /** Some event of a queue can be dispatched, in its time. */
  lemma SomeDispatch(q: Queue) returns (id: EventId, due: Time, at: Time)
    requires |q.gc| > 0
    ensures CanDispatch(q, id, due, at)
  {
    due := Least(q.gc);
    id := GC;
    if |q.dump| > 0 {
      var d := Least(q.dump);
      if d < due {
        id, due := DUMP, d;
      }
    }
    at := if q.now < due then due else q.now;
  }

  lemma Least(m: multiset<Time>) returns (least: Time)
    requires |m| > 0
    ensures least in m && forall t | t in m :: least <= t
    decreases |m|
  {
    if forall t :: t !in m {
      assert false;
    }
    var t :| t in m;
    var rest := m - multiset{t};
    forall u | u in m ensures u == t || u in rest {}
    least := t;
    if |rest| > 0 {
      var other := Least(rest);
      if other < t {
        least := other;
      }
    }
  }

  lemma OneStep(start: Loop, step: Step)
    requires Allowed(start, step) && KeepsSession(step)
    ensures AllowedRun(start, [step]) && Run(start, [step]) == Next(start, step)
  {
    hide Next, Allowed;
    RunOneMore(start, [], step);
    assert [] + [step] == [step];
  }

  lemma StartQueue(s: Loop, cfg: Config)
    requires !s.enabled
    ensures var t := AfterSwitch(s, true, cfg, false);
            && t.isRunning && t.calls == s.calls && t.queue.dump == s.queue.dump
            && t.queue.gc == s.queue.gc + multiset{t.queue.now + t.gcDelay}
            && (Ordered(t) <==> Ordered(WithDelays(s, cfg)))
  {}

  /** Runs of one or two dispatches, as their calls tell. */
  lemma CallBreaksTurns(s: Loop, cfg: Config, steps: seq<Step>, i: nat)
    requires SessionRun(s, cfg, steps)
    requires var t := Run(AfterSwitch(s, true, cfg, false), steps);
             |s.calls| + i < |t.calls| && t.calls[|s.calls| + i].id != if i % 2 == 0 then GC else DUMP
    ensures !TakesTurns(Run(AfterSwitch(s, true, cfg, false), steps), s.calls)
  {
    hide AfterSwitch, Run, SessionRun;
    var t := Run(AfterSwitch(s, true, cfg, false), steps);
    assert t.calls[|s.calls|..][i] == t.calls[|s.calls| + i];
  }

  /** A leftover DUMP event comes out of turn, or makes two of the next. */
  lemma LeftoverDumpBreaksTurns(s: Loop, cfg: Config) returns (steps: seq<Step>)
    requires !s.enabled && s.queue.gc == multiset{} && |s.queue.dump| == 1
    ensures SessionRun(s, cfg, steps) && !TakesTurns(Run(AfterSwitch(s, true, cfg, false), steps), s.calls)
  {
    StartQueue(s, cfg);
    hide AfterSwitch, AfterDispatch, CanDispatch, Ordered, Run, AllowedRun;
    var start := AfterSwitch(s, true, cfg, false);
    var id, due, at := SomeDispatch(start.queue);
    steps := [Dispatch(id, due, at)];
    OneStep(start, steps[0]);
    FirstCallOrDumps(start, id, due, at);
    if id == DUMP {
      CallBreaksTurns(s, cfg, steps, 0);
    }
  }

  lemma FirstCallOrDumps(s: Loop, id: EventId, due: Time, at: Time)
    requires s.isRunning
    ensures var t := AfterDispatch(s, id, due, at);
            && |t.calls| == |s.calls| + 1 && t.calls[|s.calls|].id == id
            && (id == GC ==> |t.queue.dump| == |s.queue.dump| + 1)
  {}

  lemma DispatchStep(s: Loop, id: EventId, due: Time, at: Time)
    ensures Next(s, Dispatch(id, due, at)) == AfterDispatch(s, id, due, at)
    ensures Allowed(s, Dispatch(id, due, at)) <==> CanDispatch(s.queue, id, due, at)
  {}

  lemma TwoGcCalls(s: Loop, due: Time) returns (steps: seq<Step>)
    requires s.isRunning && s.queue.gc == multiset{due} && s.queue.dump == multiset{} && s.gcDelay <= s.dumpDelay
    requires s.queue.now <= due
    ensures AllowedRun(s, steps) && forall i | 0 <= i < |steps| :: KeepsSession(steps[i])
    ensures |Run(s, steps).calls| == |s.calls| + 2 && Run(s, steps).calls[|s.calls| + 1].id == GC
  {
    hide AfterDispatch, CanDispatch, Run, AllowedRun, Next, Allowed;
    var again := due + s.gcDelay;
    var s1 := AfterDispatch(s, GC, due, due);
    GcAlone(s, due);
    FirstCallOrDumps(s, GC, due, due);
    FirstCallOrDumps(s1, GC, again, again);
    DispatchStep(s, GC, due, due);
    DispatchStep(s1, GC, again, again);
    OneStep(s, Dispatch(GC, due, due));
    RunOneMore(s, [Dispatch(GC, due, due)], Dispatch(GC, again, again));
    steps := [Dispatch(GC, due, due)] + [Dispatch(GC, again, again)];
  }

  /** With the delays out of order, the GC event armed again may come before its DUMP event. */
  lemma DisorderBreaksTurns(s: Loop, cfg: Config) returns (steps: seq<Step>)
    requires !s.enabled && s.queue.gc == multiset{} && s.queue.dump == multiset{} && !Ordered(WithDelays(s, cfg))
    ensures SessionRun(s, cfg, steps) && !TakesTurns(Run(AfterSwitch(s, true, cfg, false), steps), s.calls)
  {
    StartQueue(s, cfg);
    hide AfterSwitch, Run, AllowedRun, KeepsSession, WithDelays;
    var start := AfterSwitch(s, true, cfg, false);
    steps := TwoGcCalls(start, start.queue.now + start.gcDelay);
    CallBreaksTurns(s, cfg, steps, 1);
  }

  lemma GcAlone(s: Loop, due: Time)
    requires s.isRunning && s.queue.gc == multiset{due} && s.queue.dump == multiset{} && s.gcDelay <= s.dumpDelay
    ensures s.queue.now <= due ==> CanDispatch(s.queue, GC, due, due)
    ensures CanDispatch(AfterDispatch(s, GC, due, due).queue, GC, due + s.gcDelay, due + s.gcDelay)
    ensures AfterDispatch(s, GC, due, due).isRunning
  {
    var q := AfterDispatch(s, GC, due, due).queue;
    assert multiset{due} - multiset{due} == multiset{};
    assert q.gc == multiset{due + s.gcDelay} && q.dump == multiset{due + s.dumpDelay};
  }

  lemma SomeRunBreaksTurns(s: Loop, cfg: Config) returns (steps: seq<Step>)
    requires !s.enabled
    requires s.queue.gc != multiset{} || s.queue.dump != multiset{} || !Ordered(WithDelays(s, cfg))
    ensures SessionRun(s, cfg, steps)
    ensures !TakesTurns(Run(AfterSwitch(s, true, cfg, false), steps), s.calls)
  {
    steps := [];
    if s.queue.gc == multiset{} && |s.queue.dump| <= 1 {
      hide TakesTurns, SessionRun, Run;
      if |s.queue.dump| == 1 {
        steps := LeftoverDumpBreaksTurns(s, cfg);
      } else {
        steps := DisorderBreaksTurns(s, cfg);
      }
    }
  }
}
