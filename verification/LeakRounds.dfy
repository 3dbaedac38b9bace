/** The watched objects and the rounds of leak detection: a GC task takes stock and forces a garbage
    collection, a later DUMP task looks at what is still there and may start a dump. */
module LeakRounds {
  import opened Common

  /** What `util.getHash` answers. */
  datatype Hash = Null | Number(n: nat)

  datatype Entry = Entry(hash: Hash, name: string, msg: string)

  // ----- the watch map: a Map in insertion order -----

  function Hashes(m: seq<Entry>): seq<Hash> {
    seq(|m|, i requires 0 <= i < |m| => m[i].hash)
  }

  ghost predicate Distinct(m: seq<Entry>) {
    forall i, j | 0 <= i < j < |m| :: m[i].hash != m[j].hash
  }

  /** `set`: an entry whose key is there keeps its place. */
  function WithEntry(m: seq<Entry>, e: Entry): seq<Entry> {
    if m == [] then [e]
    else if m[0].hash == e.hash then [e] + m[1..]
    else [m[0]] + WithEntry(m[1..], e)
  }

  /** `delete` */
  function Without(m: seq<Entry>, h: Hash): seq<Entry> {
    if m == [] then []
    else if m[0].hash == h then m[1..]
    else [m[0]] + Without(m[1..], h)
  }

  lemma {:induction false} WithEntryKeys(m: seq<Entry>, e: Entry)
    requires Distinct(m)
    ensures var r := WithEntry(m, e);
            && Distinct(r)
            && (forall h :: h in Hashes(r) <==> h in Hashes(m) || h == e.hash)
            && (e.hash in Hashes(m) ==> Hashes(r) == Hashes(m))
            && (e.hash !in Hashes(m) ==> Hashes(r) == Hashes(m) + [e.hash])
            && (forall x :: x in r <==> x == e || (x in m && x.hash != e.hash))
  {
    WithEntryMembers(m, e);
    if m != [] {
      WithEntryKeys(m[1..], e);
      HashesOfCons(m);
      HashesOfCons(WithEntry(m, e));
      DistinctCons(m);
      DistinctCons(WithEntry(m, e));
    } else {
      HashesOfCons([e]);
    }
  }

  lemma {:induction false} WithEntryMembers(m: seq<Entry>, e: Entry)
    requires Distinct(m)
    ensures forall x :: x in WithEntry(m, e) <==> x == e || (x in m && x.hash != e.hash)
  {
    hide Hashes, Distinct;
    if m != [] {
      DistinctCons(m);
      WithEntryMembers(m[1..], e);
      ConsMembers(m);
      ConsMembers(WithEntry(m, e));
      KeyOfMember(m[1..], m[0].hash);
    }
  }

  lemma {:induction false} WithoutKeys(m: seq<Entry>, h: Hash)
    requires Distinct(m)
    ensures var r := Without(m, h);
            && Distinct(r) && (forall k :: k in Hashes(r) <==> k in Hashes(m) && k != h)
            && (forall x :: x in r <==> x in m && x.hash != h) && Subsequence(r, m)
  {
    if m != [] {
      WithoutKeys(m[1..], h);
      ConsMembers(m);
      KeyOfMember(m[1..], m[0].hash);
      AllOfIt(m[1..]);
      HashesOfCons(m);
      DistinctCons(m);
      if m[0].hash != h {
        ConsMembers(Without(m, h));
        assert Without(m, h)[1..] == Without(m[1..], h);
        HashesOfCons(Without(m, h));
        DistinctCons(Without(m, h));
      }
    }
  }

  lemma ConsMembers(m: seq<Entry>)
    requires m != []
    ensures forall x :: x in m <==> x == m[0] || x in m[1..]
  {
    assert m == [m[0]] + m[1..];
  }

  lemma KeyOfMember(m: seq<Entry>, h: Hash)
    requires h !in Hashes(m)
    ensures forall x | x in m :: x.hash != h
  {
    HashIn(h, m);
  }

  lemma {:induction false} AllOfIt(m: seq<Entry>)
    ensures Subsequence(m, m)
  {
    if m != [] {
      AllOfIt(m[1..]);
    }
  }

  lemma HashesOfCons(m: seq<Entry>)
    requires m != []
    ensures Hashes(m) == [m[0].hash] + Hashes(m[1..])
  {}

  lemma DistinctCons(m: seq<Entry>)
    requires m != []
    ensures Distinct(m) <==> Distinct(m[1..]) && m[0].hash !in Hashes(m[1..])
  {
    HashesOfCons(m);
    if Distinct(m[1..]) && m[0].hash !in Hashes(m[1..]) {
      forall i, j | 0 <= i < j < |m| ensures m[i].hash != m[j].hash {
        assert Hashes(m[1..])[j - 1] == m[j].hash;
        if i > 0 {
          assert m[1..][i - 1] == m[i] && m[1..][j - 1] == m[j];
        }
      }
    }
    if Distinct(m) {
      forall i, j | 0 <= i < j < |m[1..]| ensures m[1..][i].hash != m[1..][j].hash {
        assert m[1..][i] == m[i + 1] && m[1..][j] == m[j + 1];
      }
    }
  }

  // ----- the lists of a round -----

  /** The comparison with the previous round's list; a missing hash compares as different. */
  predicate SameHashes(a: seq<Entry>, b: seq<Entry>) {
    |a| == |b|
    && forall i | 0 <= i < |a| :: a[i].hash != Null && b[i].hash != Null && a[i].hash == b[i].hash
  }

  /** The entries of `later` whose hash some entry of `earlier` has. */
  function StillThere(later: seq<Entry>, earlier: seq<Entry>): seq<Entry> {
    if later == [] then []
    else (if exists e | e in earlier :: e.hash == later[0].hash then [later[0]] else [])
         + StillThere(later[1..], earlier)
  }

  lemma HashIn(h: Hash, m: seq<Entry>)
    ensures h in Hashes(m) <==> exists e | e in m :: e.hash == h
  {
    if h in Hashes(m) {
      var i :| 0 <= i < |Hashes(m)| && Hashes(m)[i] == h;
      assert m[i] in m;
    }
    if exists e | e in m :: e.hash == h {
      var e :| e in m && e.hash == h;
      var i :| 0 <= i < |m| && m[i] == e;
      assert Hashes(m)[i] == h;
    }
  }

  /** r is m with some entries left out. */
  ghost predicate Subsequence(r: seq<Entry>, m: seq<Entry>) {
    r == [] || (m != [] && ((r[0] == m[0] && Subsequence(r[1..], m[1..])) || Subsequence(r, m[1..])))
  }

  /** The intersection holds exactly the objects watched at both times, in map order, each once. */
  lemma {:induction false} IntersectionExact(later: seq<Entry>, earlier: seq<Entry>)
    requires Distinct(later)
    ensures var r := StillThere(later, earlier);
            && (forall e :: e in r <==> e in later && e.hash in Hashes(earlier))
            && Distinct(r) && Subsequence(r, later)
            && (forall h :: h in Hashes(r) <==> h in Hashes(later) && h in Hashes(earlier))
  {
    if later != [] {
      var rest, r := StillThere(later[1..], earlier), StillThere(later, earlier);
      DistinctCons(later);
      IntersectionExact(later[1..], earlier);
      HashIn(later[0].hash, earlier);
      HashesOfCons(later);
      if later[0].hash in Hashes(earlier) {
        assert r == [later[0]] + rest && r[1..] == rest;
        HashesOfCons(r);
        DistinctCons(r);
      } else {
        assert r == rest;
      }
    }
  }

  /** When no key has come or gone, everything is still there. */
  lemma {:induction false} AllStillThere(later: seq<Entry>, earlier: seq<Entry>)
    requires forall e | e in later :: e.hash in Hashes(earlier)
    ensures StillThere(later, earlier) == later
  {
    if later != [] {
      HashIn(later[0].hash, earlier);
      AllStillThere(later[1..], earlier);
      assert later == [later[0]] + later[1..];
    }
  }

  // ----- the state -----

  datatype Process = Process(name: string, state: nat)

  const FOREGROUND: nat := 1
  const BACKGROUND: nat := 3

  datatype LeakLists = LeakLists(current: seq<Entry>, duplicate: seq<Entry>, intersection: seq<Entry>)

  /** What is known of the processes: the list, if there is one, the process found in it, and the
      application state last read. */
  datatype App = App(info: Option<seq<Process>>, existing: Option<Process>, applicationState: nat)

  datatype Limits = Limits(foreground: nat, background: nat)

  /** `round` counts the GC tasks. `settledBy` and `forcedBy` are the rounds whose promises have, since the
      last GC task, settled, and forced a garbage collection. */
  datatype Detector = Detector(watched: seq<Entry>, lists: LeakLists, app: App, isGC: bool, limits: Limits,
                               round: nat, settledBy: set<nat>, forcedBy: set<nat>)

  /** An empty array stands where the found process will be: it counts as found. */
  const Initial := Detector([], LeakLists([], [], []), App(Some([]), Some(Process("", 0)), 2), true, Limits(5, 1),
                            0, {}, {})

  /** How the promise of the process information settles. */
  datatype Answer = Rejected | Missing | Listed(processes: seq<Process>, gcThrows: bool)

  function Find(ps: seq<Process>, name: string): Option<Process> {
    if ps == [] then None else if ps[0].name == name then Some(ps[0]) else Find(ps[1..], name)
  }

  predicate TooFew(count: nat, limits: Limits, applicationState: nat) {
    || (count < limits.foreground && applicationState == FOREGROUND)
    || (count < limits.background && applicationState == BACKGROUND)
  }

  /** The process was found in a list that is there and not empty. */
  predicate Known(app: App) {
    app.info.Some? && |app.info.value| > 0 && app.existing.Some?
  }

  // ----- what each step does -----

  function AfterGcTask(s: Detector): Detector {
    s.(lists := s.lists.(current := s.watched), round := s.round + 1, settledBy := {}, forcedBy := {})
  }

  /** The promise of the given round settles. */
  function AfterAnswer(s: Detector, a: Answer, bundleName: string, round: nat): Detector {
    var t := s.(settledBy := s.settledBy + {round});
    match a
    case Rejected => t.(isGC := false)
    case Missing => t.(app := s.app.(info := None), isGC := false)
    case Listed(ps, gcThrows) =>
      var app := App(Some(ps), Find(ps, bundleName), s.app.applicationState);
      if !Known(app) then t.(app := app)
      else
        var found := app.(applicationState := app.existing.value.state);
        if TooFew(|s.lists.current|, s.limits, found.applicationState) then t.(app := found, isGC := false)
        else t.(app := found, isGC := !gcThrows, forcedBy := s.forcedBy + if gcThrows then {} else {round})
  }

  function AfterDumpTask(s: Detector): Detector {
    if !s.isGC || SameHashes(s.lists.current, s.lists.duplicate) then s
    else
      var both := StillThere(s.watched, s.lists.current);
      s.(lists := LeakLists(s.lists.current, both, both))
  }

  /** startDumptask reaches dumpInner. */
  predicate DumpReached(s: Detector) {
    && s.isGC && !SameHashes(s.lists.current, s.lists.duplicate)
    && Known(s.app)
    && !TooFew(|StillThere(s.watched, s.lists.current)|, s.limits, s.app.applicationState)
  }

  // ----- the code -----

  class LeakDetector {
    const bundleName: string
    var watchObjMap: seq<Entry>
    var currentLeakList: seq<Entry>
    var duplicateLeakList: seq<Entry>
    var intersection: seq<Entry>
    var processInformation: Option<seq<Process>>
    var existing: Option<Process>
    var applicationState: nat
    var isGC: bool
    var fgLeakCountThreshold: nat
    var bgLeakCountThreshold: nat
    ghost var round: nat
    ghost var settledBy: set<nat>
    ghost var forcedBy: set<nat>

    ghost function State(): Detector
      reads this
    {
      Detector(watchObjMap, LeakLists(currentLeakList, duplicateLeakList, intersection),
               App(processInformation, existing, applicationState), isGC,
               Limits(fgLeakCountThreshold, bgLeakCountThreshold), round, settledBy, forcedBy)
    }

    constructor (bundleName: string)
      ensures State() == Initial
    {
      this.bundleName := bundleName;
      watchObjMap, currentLeakList, duplicateLeakList, intersection := [], [], [], [];
      processInformation, existing, applicationState := Some([]), Some(Process("", 0)), 2;
      isGC, fgLeakCountThreshold, bgLeakCountThreshold := true, 5, 1;
      round, settledBy, forcedBy := 0, {}, {};
    }

    method RegisterObject(objMsg: Entry)
      modifies this`watchObjMap
      ensures State() == old(State()).(watched := WithEntry(old(watchObjMap), objMsg))
    {
      watchObjMap := WithEntry(watchObjMap, objMsg);
    }

    /** The callback of the finalization registry. */
    method OnFinalized(hash: Hash)
      modifies this`watchObjMap
      ensures State() == old(State()).(watched := Without(old(watchObjMap), hash))
    {
      if hash in Hashes(watchObjMap) {
        watchObjMap := Without(watchObjMap, hash);
      } else {
        NothingToDelete(watchObjMap, hash);
      }
    }

    method StartGCtask()
      modifies this
      ensures State() == AfterGcTask(old(State()))
    {
      currentLeakList := watchObjMap;
      round, settledBy, forcedBy := round + 1, {}, {};
    }

    method OnProcessInformation(a: Answer, ghost ofRound: nat)
      modifies this
      ensures State() == AfterAnswer(old(State()), a, bundleName, ofRound)
    {
      hide Find;
      settledBy := settledBy + {ofRound};
      if a.Rejected? {
        isGC := false;
        return;
      }
      if a.Missing? {
        processInformation := None;
        isGC := false;
        return;
      }
      processInformation := Some(a.processes);
      existing := Find(a.processes, bundleName);
      if |a.processes| > 0 && existing.Some? {
        applicationState := existing.value.state;
        if |currentLeakList| < fgLeakCountThreshold && applicationState == FOREGROUND {
          isGC := false;
          return;
        }
        if |currentLeakList| < bgLeakCountThreshold && applicationState == BACKGROUND {
          isGC := false;
          return;
        }
        if a.gcThrows {
          isGC := false;
          return;
        }
        forcedBy := forcedBy + {ofRound};
        isGC := true;
      }
    }

    method StartDumptask() returns (dump: bool)
      modifies this
      ensures State() == AfterDumpTask(old(State()))
      ensures dump <==> DumpReached(old(State()))
    {
      dump := false;
      if !isGC {
        return;
      }
      if SameHashes(currentLeakList, duplicateLeakList) {
        return;
      }
      intersection := StillThere(watchObjMap, currentLeakList);
      duplicateLeakList := intersection;
      if processInformation.Some? && |processInformation.value| > 0 && existing.Some? {
        if |intersection| < fgLeakCountThreshold && applicationState == FOREGROUND {
          return;
        }
        if |intersection| < bgLeakCountThreshold && applicationState == BACKGROUND {
          return;
        }
        dump := true;
      }
    }
  }

  lemma {:induction false} NothingToDelete(m: seq<Entry>, h: Hash)
    requires h !in Hashes(m)
    ensures Without(m, h) == m
  {
    if m != [] {
      HashesOfCons(m);
      assert Hashes(m)[0] == m[0].hash;
      NothingToDelete(m[1..], h);
    }
  }

  // ----- runs -----

  datatype Event =
    | Register(entry: Entry)
    | Finalize(hash: Hash)
    | Clear
    | GcTask
    | Settle(answer: Answer, bundleName: string, round: nat)
    | DumpTask
    | SetLimits(limits: Limits)

  function Next(s: Detector, e: Event): Detector {
    match e
    case Register(entry) => s.(watched := WithEntry(s.watched, entry))
    case Finalize(hash) => s.(watched := Without(s.watched, hash))
    case Clear => s.(watched := [])
    case GcTask => AfterGcTask(s)
    case Settle(a, bundleName, round) => AfterAnswer(s, a, bundleName, round)
    case DumpTask => AfterDumpTask(s)
    case SetLimits(limits) => s.(limits := limits)
  }

  function Run(s: Detector, events: seq<Event>): Detector
    decreases |events|
  {
    if events == [] then s else Next(Run(s, events[..|events| - 1]), events[|events| - 1])
  }

  // ----- every dump is justified by its own round -----

  ghost predicate RoundInv(s: Detector) {
    && Distinct(s.watched)
    && (s.settledBy != {} && s.isGC && Known(s.app) ==> s.forcedBy != {})
    && s.forcedBy <= s.settledBy
  }

  lemma RoundStep(s: Detector, e: Event)
    requires RoundInv(s)
    ensures RoundInv(Next(s, e))
  {
    match e
    case Register(entry) => WithEntryKeys(s.watched, entry);
    case Finalize(hash) => WithoutKeys(s.watched, hash);
    case _ =>
  }

  /** Every promise settles before the next GC task. */
  ghost predicate SettleInTime(events: seq<Event>) {
    forall i | 0 <= i < |events| && events[i].Settle? :: events[i].round == Run(Initial, events[..i]).round
  }

  /** A dump that is reached: a promise has forced a collection since the round's GC task exactly if a promise
      has settled since; with only the round's own promise settled, exactly if that one forced it; and the
      objects still there meet the limit for the application state. */
  ghost predicate DumpJustified(s: Detector) {
    DumpReached(s) ==>
      && (s.forcedBy != {} <==> s.settledBy != {})
      && (s.settledBy <= {s.round} ==> (s.round in s.forcedBy <==> s.round in s.settledBy))
      && !TooFew(|AfterDumpTask(s).lists.intersection|, s.limits, s.app.applicationState)
  }

  lemma RoundJustifies(s: Detector)
    requires RoundInv(s)
    ensures DumpJustified(s)
  {
    if s.settledBy <= {s.round} && s.forcedBy != {} {
      var r :| r in s.forcedBy;
      assert r == s.round;
    }
  }

  /** In any run, every dump is justified in this way, and where promises settle in time, by its own round. */
  lemma {:induction false} DumpsAreJustified(events: seq<Event>)
    ensures RoundInv(Run(Initial, events)) && DumpJustified(Run(Initial, events))
    ensures SettleInTime(events) ==> Run(Initial, events).settledBy <= {Run(Initial, events).round}
    decreases |events|
  {
    if events != [] {
      var last := |events| - 1;
      var s := Run(Initial, events[..last]);
      hide RoundInv, DumpJustified;
      DumpsAreJustified(events[..last]);
      RoundStep(s, events[last]);
      assert SettleInTime(events) ==> SettleInTime(events[..last]) by {
        forall i | 0 <= i < last ensures events[..last][i] == events[i] && events[..last][..i] == events[..i] {}
      }
    }
    RoundJustifies(Run(Initial, events));
  }

  /** A promise that is late: the second round dumps on the word of the first. */
  lemma LateAnswerDumpsUnforced(name: string)
    ensures var a, b := Entry(Number(1), "A", ""), Entry(Number(2), "B", "");
            var s := Next(Next(Next(Next(Next(Next(Initial, Register(a)), GcTask),
                     Settle(Listed([Process(name, 2)], false), name, 1)), DumpTask), Register(b)), GcTask);
            DumpReached(s) && s.forcedBy == {} && s.settledBy == {}
  {
    var a, b := Entry(Number(1), "A", ""), Entry(Number(2), "B", "");
    assert WithEntry([a], b) == [a, b];
    HashIn(a.hash, [a]);
    AllStillThere([a], [a]);
  }

  /** A stale promise may stand in for the round's own: the first round's settles after the second GC task
      and forces the collection, while the second round's has not settled. */
  lemma StaleAnswerStandsIn(name: string)
    ensures var a := Entry(Number(1), "A", "");
            var s := Next(Next(Next(Next(Initial, Register(a)), GcTask), GcTask),
                          Settle(Listed([Process(name, 2)], false), name, 1));
            DumpReached(s) && s.round == 2 && s.forcedBy == s.settledBy == {1}
  {
    var a := Entry(Number(1), "A", "");
    HashIn(a.hash, [a]);
    AllStillThere([a], [a]);
  }

  lemma {:induction false} FindFirst(ps: seq<Process>, name: string)
    ensures Find(ps, name).None? <==> forall p | p in ps :: p.name != name
    ensures Find(ps, name).Some? ==>
              exists i | 0 <= i < |ps| ::
                ps[i] == Find(ps, name).value && ps[i].name == name && forall j | 0 <= j < i :: ps[j].name != name
  {
    if ps != [] {
      FindFirst(ps[1..], name);
      assert ps == [ps[0]] + ps[1..];
      if ps[0].name != name && Find(ps, name).Some? {
        var i :| 0 <= i < |ps[1..]| && ps[1..][i] == Find(ps, name).value && ps[1..][i].name == name
                 && forall j | 0 <= j < i :: ps[1..][j].name != name;
        assert ps[i + 1] == ps[1..][i];
        assert forall j | 1 <= j < i + 1 :: ps[j] == ps[1..][j - 1];
      }
    }
  }

  /** A promise forces a collection exactly when it answers with a list that names the bundle, the objects
      counted at the last GC task meet the limit for the first process so named, and the collection does not
      throw. */
  lemma CollectionForcedExactly(s: Detector, a: Answer, name: string, round: nat)
    ensures round in AfterAnswer(s, a, name, round).forcedBy <==>
            || round in s.forcedBy
            || (&& a.Listed? && !a.gcThrows
                && exists i | 0 <= i < |a.processes| ::
                     && a.processes[i].name == name && (forall j | 0 <= j < i :: a.processes[j].name != name)
                     && !TooFew(|s.lists.current|, s.limits, a.processes[i].state))
  {
    if a.Listed? {
      FindFirst(a.processes, name);
    }
  }

  /** The first process of a list that has the name. */
  ghost predicate FirstNamed(ps: seq<Process>, name: string, p: Process) {
    exists i | 0 <= i < |ps| :: ps[i] == p && p.name == name && forall j | 0 <= j < i :: ps[j].name != name
  }

  /** In the foreground (1) and in the background (3) a number of objects must be reached; elsewhere any will do. */
  predicate Meets(count: nat, limits: Limits, applicationState: nat) {
    (applicationState == 1 ==> count >= limits.foreground) && (applicationState == 3 ==> count >= limits.background)
  }

  lemma FindsFirstNamed(ps: seq<Process>, name: string, p: Process)
    ensures FirstNamed(ps, name, p) <==> Find(ps, name) == Some(p)
  {
    FindFirst(ps, name);
  }

  /** The flag for the DUMP task after an answer: set exactly if a collection was forced, or the list does not
      name the process and it was set before. */
  lemma FlagAfterAnswer(s: Detector, a: Answer, name: string, round: nat)
    ensures AfterAnswer(s, a, name, round).isGC <==>
            && a.Listed?
            && ((s.isGC && forall p | p in a.processes :: p.name != name)
                || (!a.gcThrows && exists p :: FirstNamed(a.processes, name, p)
                                               && Meets(|s.lists.current|, s.limits, p.state)))
  {
    if a.Listed? {
      FindFirst(a.processes, name);
      forall p ensures FirstNamed(a.processes, name, p) <==> Find(a.processes, name) == Some(p) {
        FindsFirstNamed(a.processes, name, p);
      }
      FindIsInList(a.processes, name);
      hide Find, FirstNamed;
      if Find(a.processes, name).Some? {
        assert FirstNamed(a.processes, name, Find(a.processes, name).value);
      }
    }
  }

  /** What may come between the tasks and the answer of a round. */
  ghost predicate Between(events: seq<Event>) {
    forall i | 0 <= i < |events| ::
      events[i].Register? || events[i].Finalize? || events[i].Clear? || events[i].SetLimits?
  }

  lemma {:induction false} BetweenKeeps(s: Detector, events: seq<Event>)
    requires Between(events)
    ensures var t := Run(s, events); t.lists == s.lists && t.app == s.app && t.isGC == s.isGC
    decreases |events|
  {
    if events != [] {
      BetweenKeeps(s, events[..|events| - 1]);
    }
  }

  lemma {:induction false} RunOn(s: Detector, a: seq<Event>, b: seq<Event>)
    ensures Run(s, a + b) == Run(Run(s, a), b)
    decreases |b|
  {
    hide Next;
    if b == [] {
      assert a + b == a;
    } else {
      assert (a + b)[..|a + b| - 1] == a + b[..|b| - 1];
      RunOn(s, a, b[..|b| - 1]);
    }
  }

  lemma RunOne(s: Detector, e: Event)
    ensures Run(s, [e]) == Next(s, e)
  {
    hide Next;
    assert [e][..0] == [];
  }

  /** Exactly when a round whose promise has settled reaches dumpInner, objects coming and going meanwhile and
      limits changing: the answer lists the process, the collection does not throw, the objects counted at
      the GC task meet the limit for the first process so named and those still there at the DUMP task meet
      it again, and the keys at the GC task are not, in order and none of them null, those of the last
      intersection. */
  lemma RoundDumpsExactly(s: Detector, mid: seq<Event>, a: Answer, name: string, round: nat, rest: seq<Event>)
    requires Between(mid) && Between(rest)
    ensures var asked := Run(s, [GcTask] + mid);
            var t := Run(s, [GcTask] + mid + [Settle(a, name, round)] + rest);
            DumpReached(t) <==>
              && a.Listed? && !a.gcThrows
              && (exists p :: && FirstNamed(a.processes, name, p)
                              && Meets(|s.watched|, asked.limits, p.state)
                              && Meets(|StillThere(t.watched, s.watched)|, t.limits, p.state))
              && !(Hashes(s.watched) == Hashes(s.lists.duplicate) && Null !in Hashes(s.watched))
  {
    var asked, settle := Run(s, [GcTask] + mid), Settle(a, name, round);
    var answered := Next(asked, settle);
    var t := Run(answered, rest);
    RunOn(s, [GcTask], mid);
    RunOn(s, [GcTask] + mid, [settle]);
    RunOn(s, [GcTask] + mid + [settle], rest);
    RunOne(s, GcTask);
    RunOne(asked, settle);
    GcTakesStock(s);
    BetweenKeeps(Next(s, GcTask), mid);
    BetweenKeeps(answered, rest);
    SameHashesExactly(s.watched, s.lists.duplicate);
    hide Run, SameHashes, Hashes, StillThere;
    DumpAfterAnswer(asked, a, name, round, t);
  }

  /** The first round, with the limits nobody has set: any object at all, or five in the foreground. */
  lemma FirstRoundExactly(before: seq<Event>, a: Answer, name: string)
    requires forall i | 0 <= i < |before| :: before[i].Register? || before[i].Finalize? || before[i].Clear?
    ensures var s := Run(Initial, before);
            DumpReached(Next(Next(s, GcTask), Settle(a, name, 1))) <==>
              && a.Listed? && !a.gcThrows && s.watched != []
              && exists p :: FirstNamed(a.processes, name, p) && (p.state == 1 ==> |s.watched| >= 5)
  {
    BetweenKeeps(Initial, before);
    LimitsStay(Initial, before);
    hide Run, FirstNamed, DumpReached;
    FirstAnswer(Run(Initial, before), a, name);
  }

  lemma FirstAnswer(s: Detector, a: Answer, name: string)
    requires s.lists == Initial.lists && s.limits == Initial.limits
    ensures DumpReached(Next(Next(s, GcTask), Settle(a, name, 1))) <==>
              && a.Listed? && !a.gcThrows && s.watched != []
              && exists p :: FirstNamed(a.processes, name, p) && (p.state == 1 ==> |s.watched| >= 5)
  {
    var asked := Next(s, GcTask);
    var t := AfterAnswer(asked, a, name, 1);
    DumpAfterAnswer(asked, a, name, 1, t);
    AnswerKeepsLists(asked, Settle(a, name, 1));
    AllKeysThere(s.watched);
    AllStillThere(s.watched, s.watched);
    SomeAreNew(s.watched);
    hide FirstNamed, StillThere, SameHashes, Hashes, AfterAnswer, DumpReached;
  }

  lemma SomeAreNew(m: seq<Entry>)
    ensures SameHashes(m, []) <==> m == []
  {}

  lemma {:induction false} LimitsStay(s: Detector, events: seq<Event>)
    requires forall i | 0 <= i < |events| :: events[i].Register? || events[i].Finalize? || events[i].Clear?
    ensures Run(s, events).limits == s.limits
    decreases |events|
  {
    if events != [] {
      LimitsStay(s, events[..|events| - 1]);
    }
  }

  lemma AllKeysThere(m: seq<Entry>)
    ensures forall e | e in m :: e.hash in Hashes(m)
  {
    forall e | e in m ensures e.hash in Hashes(m) {
      HashIn(e.hash, m);
    }
  }

  /** A first DUMP task that comes before the answer reports nothing, but its objects count as reported: the
      next round, with a good answer, is suppressed. */
  lemma UnansweredRoundSilences(e: Entry, a: Answer, name: string)
    requires e.hash != Null
    ensures var first := Next(Next(Initial, Register(e)), GcTask);
            var second := Next(Next(Next(first, DumpTask), GcTask), Settle(a, name, 2));
            !DumpReached(first) && second.watched == [e] && !DumpReached(second)
  {
    AllKeysThere([e]);
    AllStillThere([e], [e]);
    assert WithEntry([], e) == [e];
    hide StillThere;
  }

  lemma DumpAfterAnswer(s: Detector, a: Answer, name: string, round: nat, t: Detector)
    requires var u := AfterAnswer(s, a, name, round); t.lists == u.lists && t.app == u.app && t.isGC == u.isGC
    ensures DumpReached(t) <==>
              && a.Listed? && !a.gcThrows
              && (exists p :: && FirstNamed(a.processes, name, p)
                              && Meets(|s.lists.current|, s.limits, p.state)
                              && Meets(|StillThere(t.watched, s.lists.current)|, t.limits, p.state))
              && !SameHashes(s.lists.current, s.lists.duplicate)
  {
    hide SameHashes, StillThere;
    if a.Listed? {
      forall p ensures FirstNamed(a.processes, name, p) <==> Find(a.processes, name) == Some(p) {
        FindsFirstNamed(a.processes, name, p);
      }
      FindIsInList(a.processes, name);
      hide Find, FirstNamed;
      if Find(a.processes, name).Some? {
        assert FirstNamed(a.processes, name, Find(a.processes, name).value);
      }
    }
  }

  // ----- what a round is compared with -----

  /** The map as it stood at the last GC task. */
  function Stock(events: seq<Event>): seq<Entry>
    decreases |events|
  {
    if events == [] then []
    else
      var front := events[..|events| - 1];
      if events[|events| - 1] == GcTask then Run(Initial, front).watched else Stock(front)
  }

  /** The last intersection that a DUMP task has computed. */
  function LastIntersection(events: seq<Event>): seq<Entry>
    decreases |events|, 0
  {
    if events == [] then []
    else
      var front := events[..|events| - 1];
      if events[|events| - 1] == DumpTask && Run(Initial, front).isGC && !Suppressed(front)
      then StillThere(Run(Initial, front).watched, Stock(front)) else LastIntersection(front)
  }

  /** The keys of the last GC task are, in order, those of that intersection, and none is null. */
  predicate Suppressed(events: seq<Event>)
    decreases |events|, 1
  {
    Hashes(Stock(events)) == Hashes(LastIntersection(events)) && Null !in Hashes(Stock(events))
  }

  lemma SameHashesExactly(a: seq<Entry>, b: seq<Entry>)
    ensures SameHashes(a, b) <==> Hashes(a) == Hashes(b) && Null !in Hashes(a)
  {
    if SameHashes(a, b) {
      assert Hashes(a) == Hashes(b);
    }
    if Hashes(a) == Hashes(b) {
      SameKeys(a, b);
    }
  }

  /** Over every run, a round is suppressed exactly if its keys are those of the last intersection computed. */
  lemma {:induction false} SuppressedExactly(events: seq<Event>)
    ensures var s := Run(Initial, events);
            && s.lists == LeakLists(Stock(events), LastIntersection(events), LastIntersection(events))
            && (SameHashes(s.lists.current, s.lists.duplicate) <==> Suppressed(events))
    ensures DumpReached(Run(Initial, events)) ==> !Suppressed(events)
    decreases |events|
  {
    hide StillThere, Hashes, SameHashes, AfterAnswer;
    if events != [] {
      var front, e := events[..|events| - 1], events[|events| - 1];
      SuppressedExactly(front);
      if e.Settle? {
        AnswerKeepsLists(Run(Initial, front), e);
      }
    }
    SameHashesExactly(Stock(events), LastIntersection(events));
  }

  // ----- quiescence -----

  /** The dumps reached in a run. */
  function Dumps(s: Detector, events: seq<Event>): nat
    decreases |events|
  {
    if events == [] then 0
    else
      var last := |events| - 1;
      Dumps(s, events[..last])
      + if events[last] == DumpTask && DumpReached(Run(s, events[..last])) then 1 else 0
  }

  /** Lists with the same keys count as the same exactly when no key is null. */
  lemma SameKeys(a: seq<Entry>, b: seq<Entry>)
    requires Hashes(a) == Hashes(b)
    ensures SameHashes(a, b) <==> Null !in Hashes(a)
  {
    assert |a| == |Hashes(a)| == |b|;
    forall i | 0 <= i < |a| ensures a[i].hash == b[i].hash {
      assert Hashes(a)[i] == Hashes(b)[i];
    }
    if Null in Hashes(a) {
      var i :| 0 <= i < |a| && Hashes(a)[i] == Null;
      assert a[i].hash == Null;
    } else {
      forall i | 0 <= i < |a| ensures a[i].hash != Null {
        assert Hashes(a)[i] == a[i].hash;
      }
    }
  }

  lemma DumpTaskKeepsKeys(s: Detector, keys: seq<Hash>)
    requires Hashes(s.watched) == keys && Hashes(s.lists.current) == keys
    ensures Hashes(AfterDumpTask(s).lists.duplicate) == keys || !s.isGC
            || SameHashes(s.lists.current, s.lists.duplicate)
    ensures Null !in keys && Hashes(s.lists.duplicate) == keys ==> !DumpReached(s)
  {
    forall e | e in s.watched ensures e.hash in Hashes(s.lists.current) {
      HashIn(e.hash, s.watched);
    }
    AllStillThere(s.watched, s.lists.current);
    if Hashes(s.lists.duplicate) == keys {
      SameKeys(s.lists.current, s.lists.duplicate);
    }
  }

  /** Once the watched keys and their order stop changing, with no null key, all rounds from then on
      reach dumpInner at most once, whatever the answers, application states and limits. */
  lemma {:induction false} ReportingQuiets(s: Detector, events: seq<Event>, keys: seq<Hash>)
    requires events != [] && events[0] == GcTask && Null !in keys
    requires forall i | 0 <= i <= |events| :: Hashes(Run(s, events[..i]).watched) == keys
    ensures var t := Run(s, events);
            && Hashes(t.lists.current) == keys
            && Dumps(s, events) <= 1
            && (Dumps(s, events) == 1 ==> Hashes(t.lists.duplicate) == keys)
    decreases |events|
  {
    hide Next, DumpReached, Hashes;
    var last := |events| - 1;
    assert events[..0] == [] && events[..|events|] == events;
    if last > 0 {
      forall i | 0 <= i <= last ensures events[..last][..i] == events[..i] {}
      ReportingQuiets(s, events[..last], keys);
      QuietStep(Run(s, events[..last]), events[last], keys);
    } else {
      GcTakesStock(s);
      assert Dumps(s, events[..0]) == 0;
    }
  }

  lemma GcTakesStock(s: Detector)
    ensures Next(s, GcTask).lists.current == s.watched == Next(s, GcTask).watched
  {}

  lemma QuietStep(s: Detector, e: Event, keys: seq<Hash>)
    requires Hashes(s.watched) == keys && Hashes(s.lists.current) == keys && Null !in keys
    ensures Hashes(Next(s, e).lists.current) == keys
    ensures Hashes(s.lists.duplicate) == keys ==> Hashes(Next(s, e).lists.duplicate) == keys
    ensures e == DumpTask && DumpReached(s) ==>
              Hashes(s.lists.duplicate) != keys && Hashes(Next(s, e).lists.duplicate) == keys
  {
    hide Hashes, AfterAnswer;
    DumpTaskKeepsKeys(s, keys);
    if e.Settle? {
      AnswerKeepsLists(s, e);
    }
  }

  lemma AnswerKeepsLists(s: Detector, e: Event)
    requires e.Settle?
    ensures Next(s, e).lists == s.lists && Next(s, e).watched == s.watched
  {}

  /** Rounds one after the other, each with its answer. */
  function Rounds(answers: seq<Answer>, name: string, first: nat): seq<Event>
    decreases |answers|
  {
    if answers == [] then []
    else
      var last := |answers| - 1;
      Rounds(answers[..last], name, first) + [GcTask] + [Settle(answers[last], name, first + last)] + [DumpTask]
  }

  /** The answer finds the process in a state whose limit the count of objects meets, and the collection does
      not throw. */
  predicate LetsDump(a: Answer, name: string, count: nat, limits: Limits) {
    a.Listed? && !a.gcThrows && Find(a.processes, name).Some?
    && !TooFew(count, limits, Find(a.processes, name).value.state)
  }

  lemma DumpsMore(s: Detector, events: seq<Event>, e: Event)
    ensures Run(s, events + [e]) == Next(Run(s, events), e)
    ensures Dumps(s, events + [e]) ==
            Dumps(s, events) + if e == DumpTask && DumpReached(Run(s, events)) then 1 else 0
  {
    hide Next, DumpReached;
    assert (events + [e])[..|events|] == events;
  }

  lemma FindIsInList(ps: seq<Process>, name: string)
    ensures Find(ps, name).Some? ==> |ps| > 0
  {}

  lemma RoundsMore(answers: seq<Answer>, name: string, first: nat)
    requires answers != []
    ensures var last := |answers| - 1;
            Rounds(answers, name, first) == Rounds(answers[..last], name, first)
              + [GcTask] + [Settle(answers[last], name, first + last)] + [DumpTask]
  {}

  /** One round over a watch list with a null key. */
  lemma NullRoundDumps(s: Detector, a: Answer, name: string, round: nat)
    requires Null in Hashes(s.watched) && LetsDump(a, name, |s.watched|, s.limits)
    ensures var t := Next(Next(s, GcTask), Settle(a, name, round));
            && DumpReached(t)
            && Next(t, DumpTask).watched == s.watched && Next(t, DumpTask).limits == s.limits
  {
    var t := Next(Next(s, GcTask), Settle(a, name, round));
    hide Find, SameHashes, StillThere, Hashes;
    FindIsInList(a.processes, name);
    NullIsNeverSame(s.watched, t.lists.duplicate);
    forall e | e in s.watched ensures e.hash in Hashes(s.watched) {
      HashIn(e.hash, s.watched);
    }
    AllStillThere(s.watched, s.watched);
  }

  lemma NullIsNeverSame(a: seq<Entry>, b: seq<Entry>)
    requires Null in Hashes(a)
    ensures !SameHashes(a, b)
  {
    var i :| 0 <= i < |Hashes(a)| && Hashes(a)[i] == Null;
    assert a[i].hash == Null;
  }

  /** With a null key among them the reports never quiet down: however often the round is repeated, with
      answers that let it dump, each round reaches dumpInner. */
  lemma {:induction false} NullKeyNeverQuiets(s: Detector, answers: seq<Answer>, name: string, first: nat)
    requires Null in Hashes(s.watched)
    requires forall a | a in answers :: LetsDump(a, name, |s.watched|, s.limits)
    ensures var t := Run(s, Rounds(answers, name, first)); t.watched == s.watched && t.limits == s.limits
    ensures Dumps(s, Rounds(answers, name, first)) == |answers|
    decreases |answers|
  {
    hide Next, DumpReached, Hashes, LetsDump, Rounds, Run, Dumps;
    if answers == [] {
      NothingRun(s, name, first);
    } else {
      var last := |answers| - 1;
      NullKeyNeverQuiets(s, answers[..last], name, first);
      RoundsMore(answers, name, first);
      assert answers[last] in answers;
      NullRoundMore(s, Rounds(answers[..last], name, first), answers[last], name, first + last);
    }
  }

  lemma NothingRun(s: Detector, name: string, first: nat)
    ensures Rounds([], name, first) == [] && Run(s, []) == s && Dumps(s, []) == 0
  {}

  lemma NullRoundMore(s: Detector, before: seq<Event>, a: Answer, name: string, round: nat)
    requires Run(s, before).watched == s.watched && Run(s, before).limits == s.limits
    requires Null in Hashes(s.watched) && LetsDump(a, name, |s.watched|, s.limits)
    ensures var events := before + [GcTask] + [Settle(a, name, round)] + [DumpTask];
            && Run(s, events).watched == s.watched && Run(s, events).limits == s.limits
            && Dumps(s, events) == Dumps(s, before) + 1
  {
    hide Next, DumpReached, Hashes, LetsDump, Run, Dumps;
    NullRoundDumps(Run(s, before), a, name, round);
    RoundMore(s, before, a, name, round);
  }

  lemma RoundMore(s: Detector, before: seq<Event>, a: Answer, name: string, round: nat)
    ensures var events, t := before + [GcTask] + [Settle(a, name, round)] + [DumpTask],
                             Next(Next(Run(s, before), GcTask), Settle(a, name, round));
            && Run(s, events) == Next(t, DumpTask)
            && Dumps(s, events) == Dumps(s, before) + if DumpReached(t) then 1 else 0
  {
    hide Next, DumpReached, Run, Dumps;
    DumpsMore(s, before, GcTask);
    DumpsMore(s, before + [GcTask], Settle(a, name, round));
    DumpsMore(s, before + [GcTask] + [Settle(a, name, round)], DumpTask);
  }

  /** From the start: one object with a null hash is reported in each of n rounds. */
  lemma NullHashDumpsEachRound(name: string, n: nat)
    ensures var s := Next(Initial, Register(Entry(Null, "A", "")));
            Dumps(s, Rounds(seq(n, _ => Listed([Process(name, 2)], false)), name, 1)) == n
  {
    var s := Next(Initial, Register(Entry(Null, "A", "")));
    assert Hashes(s.watched)[0] == Null;
    NullKeyNeverQuiets(s, seq(n, _ => Listed([Process(name, 2)], false)), name, 1);
  }
}
