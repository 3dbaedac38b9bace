/** What the watch map and the intersection of a round mean for the objects themselves. */
module WatchedObjects {
  import opened LeakRounds

  type Object = nat

  /** What happens to objects, in any interleaving: one is registered, a finalization callback of a
      collected one runs (late or repeated as it may be), the map is cleared, a task runs. */
  datatype Happening =
    | Watch(obj: Object, name: string, msg: string)
    | Finalized(obj: Object)
    | Cleared
    | Task(event: Event)

  function EventOf(x: Happening, hashOf: Object -> Hash): Event {
    match x
    case Watch(o, name, msg) => Register(Entry(hashOf(o), name, msg))
    case Finalized(o) => Finalize(hashOf(o))
    case Cleared => Clear
    case Task(event) => event
  }

  function Events(h: seq<Happening>, hashOf: Object -> Hash): seq<Event> {
    seq(|h|, i requires 0 <= i < |h| => EventOf(h[i], hashOf))
  }

  function After(h: seq<Happening>, hashOf: Object -> Hash): Detector {
    Run(Initial, Events(h, hashOf))
  }

  /** Tasks leave the map alone, and a collected object is not registered again. */
  ghost predicate Valid(h: seq<Happening>) {
    && (forall i | 0 <= i < |h| && h[i].Task? ::
          h[i].event.GcTask? || h[i].event.Settle? || h[i].event.DumpTask? || h[i].event.SetLimits?)
    && (forall i, j | 0 <= i < j < |h| && h[i].Finalized? && h[j].Watch? :: h[i].obj != h[j].obj)
  }

  ghost predicate UniqueHashes(hashOf: Object -> Hash) {
    forall o, p :: hashOf(o) == hashOf(p) ==> o == p
  }

  /** Registered since the map was last cleared. */
  ghost predicate RegisteredSinceClear(h: seq<Happening>, o: Object) {
    exists k | 0 <= k < |h| :: h[k].Watch? && h[k].obj == o && forall j | k < j < |h| :: !h[j].Cleared?
  }

  ghost predicate NotFinalized(h: seq<Happening>, o: Object) {
    forall k | 0 <= k < |h| :: h[k] != Finalized(o)
  }

  ghost predicate Tracked(h: seq<Happening>, o: Object) {
    RegisteredSinceClear(h, o) && NotFinalized(h, o)
  }

  lemma AfterStep(h: seq<Happening>, hashOf: Object -> Hash)
    requires h != []
    ensures After(h, hashOf) == Next(After(h[..|h| - 1], hashOf), EventOf(h[|h| - 1], hashOf))
  {
    assert Events(h, hashOf)[..|h| - 1] == Events(h[..|h| - 1], hashOf);
  }

  lemma TrackedStep(h: seq<Happening>, x: Happening, o: Object)
    requires Valid(h + [x])
    ensures Tracked(h + [x], o) <==>
            match x
            case Watch(p, _, _) => Tracked(h, o) || p == o
            case Finalized(p) => Tracked(h, o) && p != o
            case Cleared => false
            case Task(_) => Tracked(h, o)
  {
    var t := h + [x];
    assert t[|h|] == x;
    assert NotFinalized(t, o) <==> NotFinalized(h, o) && x != Finalized(o) by {
      assert forall k | 0 <= k < |h| :: t[k] == h[k];
    }
    if RegisteredSinceClear(h, o) && !x.Cleared? {
      var k :| 0 <= k < |h| && h[k].Watch? && h[k].obj == o && forall j | k < j < |h| :: !h[j].Cleared?;
      assert t[k] == h[k];
    }
    if RegisteredSinceClear(t, o) {
      var k :| 0 <= k < |t| && t[k].Watch? && t[k].obj == o && forall j | k < j < |t| :: !t[j].Cleared?;
      if k < |h| {
        assert h[k] == t[k] && !t[|h|].Cleared?;
        assert forall j | k < j < |h| :: h[j] == t[j];
      }
    }
    if x.Watch? && x.obj == o {
      assert forall k | 0 <= k < |h| :: h[k] == t[k];
      assert NotFinalized(h, o);
    }
  }

  /** The watch map holds exactly the objects registered since the last clear and not yet finalized,
      under any interleaving of registrations, repeated registrations, clears and finalization
      callbacks, late and repeated ones included. */
  lemma {:induction false} MapTracksObjects(h: seq<Happening>, hashOf: Object -> Hash)
    requires Valid(h) && UniqueHashes(hashOf)
    ensures Distinct(After(h, hashOf).watched)
    ensures forall o :: hashOf(o) in Hashes(After(h, hashOf).watched) <==> Tracked(h, o)
    ensures forall k | k in Hashes(After(h, hashOf).watched) :: exists o :: hashOf(o) == k
    decreases |h|
  {
    hide Tracked, AfterAnswer, AfterDumpTask;
    if h == [] {
      assert forall o :: !Tracked(h, o) by { NothingTracked(); }
    } else {
      var last := |h| - 1;
      var x := h[last];
      assert h == h[..last] + [x];
      MapTracksObjects(h[..last], hashOf);
      AfterStep(h, hashOf);
      forall o ensures Tracked(h, o) <==> match x
                                          case Watch(p, _, _) => Tracked(h[..last], o) || p == o
                                          case Finalized(p) => Tracked(h[..last], o) && p != o
                                          case Cleared => false
                                          case Task(_) => Tracked(h[..last], o)
      {
        TrackedStep(h[..last], x, o);
      }
      var m := After(h[..last], hashOf).watched;
      match x
      case Watch(p, name, msg) => WithEntryKeys(m, Entry(hashOf(p), name, msg));
      case Finalized(p) => WithoutKeys(m, hashOf(p));
      case Cleared =>
      case Task(e) => TaskKeepsMap(After(h[..last], hashOf), e);
    }
  }

  lemma NothingTracked()
    ensures forall o :: !Tracked([], o)
  {}

  lemma TaskKeepsMap(s: Detector, e: Event)
    requires e.GcTask? || e.Settle? || e.DumpTask? || e.SetLimits?
    ensures Next(s, e).watched == s.watched
    ensures Next(s, e).lists.current == if e.GcTask? then s.watched else s.lists.current
  {}

  /** The list a round compares with is the map as it stood at its GC task. */
  lemma {:induction false} StockOfRound(h: seq<Happening>, g: nat, hashOf: Object -> Hash)
    requires Valid(h) && g < |h| && h[g] == Task(GcTask)
    requires forall j | g < j < |h| :: h[j] != Task(GcTask)
    ensures After(h, hashOf).lists.current == After(h[..g], hashOf).watched
    decreases |h|
  {
    hide AfterAnswer, AfterDumpTask, AfterGcTask;
    var last := |h| - 1;
    AfterStep(h, hashOf);
    if g == last {
      TaskKeepsMap(After(h[..g], hashOf), GcTask);
    } else {
      assert h[..last][..g] == h[..g];
      StockOfRound(h[..last], g, hashOf);
      if h[last].Task? {
        TaskKeepsMap(After(h[..last], hashOf), h[last].event);
      }
    }
  }

  /** The intersection a round reports: exactly the objects tracked when its GC task ran that are
      still tracked when its DUMP task runs, each once and in map order. */
  lemma IntersectionOfRound(h: seq<Happening>, g: nat, hashOf: Object -> Hash, o: Object)
    requires Valid(h) && UniqueHashes(hashOf) && g < |h| && h[g] == Task(GcTask)
    requires forall j | g < j < |h| :: h[j] != Task(GcTask)
    requires var s := After(h, hashOf); s.isGC && !SameHashes(s.lists.current, s.lists.duplicate)
    ensures var both := AfterDumpTask(After(h, hashOf)).lists.intersection;
            && (hashOf(o) in Hashes(both) <==> Tracked(h[..g], o) && Tracked(h, o))
            && Distinct(both) && Subsequence(both, After(h, hashOf).watched)
  {
    hide Tracked, Run;
    MapTracksObjects(h, hashOf);
    MapTracksObjects(h[..g], hashOf);
    StockOfRound(h, g, hashOf);
    IntersectionExact(After(h, hashOf).watched, After(h[..g], hashOf).watched);
  }

  /** The list a later round is compared with stays until the next DUMP task. */
  lemma {:induction false} ComparedStays(h: seq<Happening>, d: nat, hashOf: Object -> Hash)
    requires d < |h| && h[d] == Task(DumpTask)
    requires forall j | d < j < |h| :: h[j] != Task(DumpTask)
    ensures After(h, hashOf).lists.duplicate == AfterDumpTask(After(h[..d], hashOf)).lists.duplicate
    decreases |h|
  {
    hide AfterAnswer, AfterDumpTask;
    var last := |h| - 1;
    AfterStep(h, hashOf);
    if d < last {
      assert h[..last][..d] == h[..d];
      ComparedStays(h[..last], d, hashOf);
      if h[last].Task? && h[last].event.Settle? {
        AnswerKeepsLists(After(h[..last], hashOf), h[last].event);
      }
    }
  }

  /** A round is suppressed only if the objects tracked at its GC task are those that the last intersection
      was of: tracked at the GC task and at the DUMP task of an earlier round. So an object that is new, or
      was not still there then, is never suppressed. */
  lemma SuppressedTracksSame(h: seq<Happening>, g: nat, d: nat, g': nat, hashOf: Object -> Hash)
    requires Valid(h) && UniqueHashes(hashOf) && g < d < g' < |h|
    requires h[g] == Task(GcTask) && h[d] == Task(DumpTask) && h[g'] == Task(GcTask)
    requires forall j | g < j < d || g' < j < |h| :: h[j] != Task(GcTask)
    requires forall j | d < j < |h| :: h[j] != Task(DumpTask)
    requires var s := After(h[..d], hashOf); s.isGC && !SameHashes(s.lists.current, s.lists.duplicate)
    ensures var s := After(h, hashOf);
            SameHashes(s.lists.current, s.lists.duplicate) ==>
              forall o :: Tracked(h[..g'], o) <==> Tracked(h[..g], o) && Tracked(h[..d], o)
  {
    hide Tracked, Run, AfterAnswer;
    var s := After(h, hashOf);
    MapTracksObjects(h[..g'], hashOf);
    StockOfRound(h, g', hashOf);
    ComparedStays(h, d, hashOf);
    SameHashesExactly(s.lists.current, s.lists.duplicate);
    assert h[..d][..g] == h[..g];
    var both := AfterDumpTask(After(h[..d], hashOf)).lists.intersection;
    forall o ensures hashOf(o) in Hashes(both) <==> Tracked(h[..g], o) && Tracked(h[..d], o) {
      IntersectionOfRound(h[..d], g, hashOf, o);
    }
  }

  /** With hashes that collide, the callback of one object forgets another that is still there. */
  lemma CollisionForgets(hashOf: Object -> Hash, o: Object, p: Object)
    requires o != p && hashOf(o) == hashOf(p)
    ensures var h := [Watch(o, "", ""), Watch(p, "", ""), Finalized(o)];
            Tracked(h, p) && hashOf(p) !in Hashes(After(h, hashOf).watched)
  {
    var h := [Watch(o, "", ""), Watch(p, "", ""), Finalized(o)];
    assert h[1].Watch? && h[1].obj == p;
    assert h[..2] == [Watch(o, "", ""), Watch(p, "", "")] && h[..2][..1] == [Watch(o, "", "")];
    AfterStep(h, hashOf);
    AfterStep(h[..2], hashOf);
    AfterStep(h[..2][..1], hashOf);
    var m := After(h[..2], hashOf).watched;
    assert m == [Entry(hashOf(p), "", "")] by { assert h[..2][..1][..0] == []; }
    WithoutKeys(m, hashOf(p));
  }
}
