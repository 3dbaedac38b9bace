/** The event loop and the rounds of leak detection together: the GC and DUMP callbacks the handler
    runs are the tasks of the rounds. */
module WatcherRuns {
  import E = EventLoop
  import L = LeakRounds

  datatype Watcher = Watcher(loop: E.Loop, leaks: L.Detector)

  /** A step of the handler, or of the script between two callbacks: objects come and go, the promise
      of a round settles. */
  datatype Step = Handler(step: E.Step) | Script(event: L.Event)

  /** What a step brings to the rounds: a running handler turns its events into tasks. */
  function Delivered(w: Watcher, step: Step): seq<L.Event> {
    match step
    case Script(e) => [e]
    case Handler(s) =>
      if s.Dispatch? && w.loop.isRunning then [if s.id == E.GC then L.GcTask else L.DumpTask] else []
  }

  function Next(w: Watcher, step: Step): Watcher {
    Watcher(if step.Handler? then E.Next(w.loop, step.step) else w.loop, L.Run(w.leaks, Delivered(w, step)))
  }

  function Run(w: Watcher, steps: seq<Step>): Watcher
    decreases |steps|
  {
    if steps == [] then w else Next(Run(w, steps[..|steps| - 1]), steps[|steps| - 1])
  }

  /** All that a run brings to the rounds. */
  function Trace(w: Watcher, steps: seq<Step>): seq<L.Event>
    decreases |steps|
  {
    if steps == [] then []
    else Trace(w, steps[..|steps| - 1]) + Delivered(Run(w, steps[..|steps| - 1]), steps[|steps| - 1])
  }

  /** The steps of a session; the tasks come from the handler alone. */
  ghost predicate Allowed(w: Watcher, step: Step) {
    match step
    case Handler(s) => E.KeepsSession(s) && E.Allowed(w.loop, s)
    case Script(e) => e != L.GcTask && e != L.DumpTask
  }

  ghost predicate AllowedRun(w: Watcher, steps: seq<Step>)
    decreases |steps|
  {
    steps == [] ||
    (AllowedRun(w, steps[..|steps| - 1]) && Allowed(Run(w, steps[..|steps| - 1]), steps[|steps| - 1]))
  }

  /** GC tasks since the last DUMP task. */
  function GcsSinceDump(events: seq<L.Event>): nat
    decreases |events|
  {
    if events == [] || events[|events| - 1] == L.DumpTask then 0
    else GcsSinceDump(events[..|events| - 1]) + if events[|events| - 1] == L.GcTask then 1 else 0
  }

  lemma GcsMore(events: seq<L.Event>, e: L.Event)
    ensures GcsSinceDump(events + [e]) ==
            if e == L.DumpTask then 0 else GcsSinceDump(events) + if e == L.GcTask then 1 else 0
  {
    assert (events + [e])[..|events|] == events;
  }

  lemma RunOne(d: L.Detector, e: L.Event)
    ensures L.Run(d, [e]) == L.Next(d, e) && L.Run(d, []) == d
  {
    assert [e][..0] == [];
  }

  ghost predicate TogetherInv(w: Watcher, trace: seq<L.Event>, done: seq<E.JsCall>) {
    && E.SessionInv(w.loop, done) && L.RoundInv(w.leaks)
    && GcsSinceDump(trace) == (|w.loop.calls| - |done|) % 2
  }

  lemma TogetherStep(w: Watcher, step: Step, trace: seq<L.Event>, done: seq<E.JsCall>)
    requires TogetherInv(w, trace, done) && Allowed(w, step)
    ensures TogetherInv(Next(w, step), trace + Delivered(w, step), done)
  {
    hide E.SessionInv, E.Ordered, L.RoundInv, L.Next;
    assert trace + [] == trace;
    forall e: L.Event ensures L.Run(w.leaks, [e]) == L.Next(w.leaks, e) && L.Run(w.leaks, []) == w.leaks {
      RunOne(w.leaks, e);
    }
    match step
    case Script(e) =>
      GcsMore(trace, e);
      L.RoundStep(w.leaks, e);
    case Handler(s) =>
      E.SessionStep(w.loop, s, done);
      CallsOfStep(w.loop, s, done);
      if s.Dispatch? {
        var e := if s.id == E.GC then L.GcTask else L.DumpTask;
        GcsMore(trace, e);
        L.RoundStep(w.leaks, e);
      }
  }

  /** In a session the handler calls back at each dispatch, and it is the turn of that callback. */
  lemma CallsOfStep(s: E.Loop, step: E.Step, done: seq<E.JsCall>)
    requires E.SessionInv(s, done) && E.KeepsSession(step) && E.Allowed(s, step)
    ensures s.isRunning && done <= s.calls
    ensures |E.Next(s, step).calls| == |s.calls| + if step.Dispatch? then 1 else 0
    ensures step.Dispatch? ==> step.id == if (|s.calls| - |done|) % 2 == 0 then E.GC else E.DUMP
  {
    if step.Dispatch? {
      E.RoundStep(s.queue, |s.calls| - |done|, step.id, step.due, step.at, s.gcDelay, s.dumpDelay);
    }
  }

  lemma {:induction false} SessionTogether(w: Watcher, steps: seq<Step>, done: seq<E.JsCall>)
    requires TogetherInv(w, [], done) && AllowedRun(w, steps)
    ensures TogetherInv(Run(w, steps), Trace(w, steps), done)
    decreases |steps|
  {
    hide TogetherInv, Next, Allowed, Delivered;
    if steps != [] {
      SessionTogether(w, steps[..|steps| - 1], done);
      TogetherStep(Run(w, steps[..|steps| - 1]), steps[|steps| - 1], Trace(w, steps[..|steps| - 1]), done);
    }
  }

  /** The tasks among events, by the event of the loop they answer. */
  function TasksOf(events: seq<L.Event>): seq<E.EventId>
    decreases |events|
  {
    if events == [] then []
    else
      var front, e := events[..|events| - 1], events[|events| - 1];
      TasksOf(front) + if e == L.GcTask then [E.GC] else if e == L.DumpTask then [E.DUMP] else []
  }

  function Ids(calls: seq<E.JsCall>): seq<E.EventId> {
    seq(|calls|, i requires 0 <= i < |calls| => calls[i].id)
  }

  lemma CallIds(s: E.Loop, step: E.Step)
    ensures Ids(E.Next(s, step).calls) == Ids(s.calls) + if step.Dispatch? && s.isRunning then [step.id] else []
  {
    E.WithDelaysKeeps(s, if step.Switch? then step.cfg else E.Kinds);
    hide E.WithDelays, E.Take, E.Send;
  }

  /** Over every run, starts and stops included: the tasks that reach the rounds are the callbacks run, in order. */
  lemma {:induction false} TasksAreCalls(w: Watcher, steps: seq<Step>)
    requires forall i | 0 <= i < |steps| && steps[i].Script? ::
               steps[i].event != L.GcTask && steps[i].event != L.DumpTask
    ensures Ids(Run(w, steps).loop.calls) == Ids(w.loop.calls) + TasksOf(Trace(w, steps))
    decreases |steps|
  {
    hide E.Next, L.Run, Ids;
    if steps != [] {
      var front, step := steps[..|steps| - 1], steps[|steps| - 1];
      assert forall i | 0 <= i < |front| :: front[i] == steps[i];
      TasksAreCalls(w, front);
      TasksMore(Trace(w, front), Delivered(Run(w, front), step));
      if step.Handler? {
        CallIds(Run(w, front).loop, step.step);
      } else {
        assert step.event != L.GcTask && step.event != L.DumpTask;
      }
    }
  }

  lemma TasksMore(trace: seq<L.Event>, more: seq<L.Event>)
    requires |more| <= 1
    ensures TasksOf(trace + more) == TasksOf(trace) + TasksOf(more)
  {
    if more == [] {
      assert trace + more == trace;
    } else {
      assert (trace + more)[..|trace|] == trace;
    }
  }

  /** In a session started on an empty queue with the delays in order, however late events are
      dispatched and whatever the script does in between: each DUMP task has exactly one GC task
      since the DUMP task before it; and if it reaches dumpInner, the dump is justified by what has
      settled since that GC task. */
  lemma EveryDumpHasItsRound(s: E.Loop, cfg: E.Config, leaks: L.Detector, steps: seq<Step>, due: E.Time, at: E.Time)
    requires !s.enabled && s.queue.gc == multiset{} && s.queue.dump == multiset{}
    requires E.Ordered(E.WithDelays(s, cfg)) && L.RoundInv(leaks)
    requires AllowedRun(Watcher(E.AfterSwitch(s, true, cfg, false), leaks), steps)
    requires E.CanDispatch(Run(Watcher(E.AfterSwitch(s, true, cfg, false), leaks), steps).loop.queue, E.DUMP, due, at)
    ensures var start := Watcher(E.AfterSwitch(s, true, cfg, false), leaks);
            var w := Run(start, steps);
            && w.loop.isRunning
            && GcsSinceDump(Trace(start, steps)) == 1
            && L.DumpJustified(w.leaks)
  {
    var start := Watcher(E.AfterSwitch(s, true, cfg, false), leaks);
    hide E.SessionInv, L.RoundInv, E.AfterSwitch, E.Next;
    E.GcAndDumpAlternate(s, cfg, []);
    StartCalls(s, cfg);
    SessionTogether(start, steps, s.calls);
    var w := Run(start, steps);
    CallsOfStep(w.loop, E.Dispatch(E.DUMP, due, at), s.calls);
    L.RoundJustifies(w.leaks);
  }

  lemma StartCalls(s: E.Loop, cfg: E.Config)
    requires !s.enabled
    ensures E.AfterSwitch(s, true, cfg, false).calls == s.calls
  {}
}
