/** The dump sets of one process in a directory that other processes use as well: when a dump leaves no
    set of its own but the one just written. */
module DumpSets {
  import opened Common
  import opened FileNames
  import opened Sorting
  import opened DumpRotation
  import opened HeapDumps
  import opened DumpRuns

  // ----- one process alone -----

  function Own(files: set<string>, pid: nat, tid: nat): set<string> {
    set f | f in files && Prefix(pid, tid) <= f
  }

  /** The clean-up before a later dump removes the process's previous set exactly when that set's
      leak list comes first among the lists. */
  lemma CleanUpRemovesOwn(s: State, last: Call, lists: seq<string>, width: nat)
    requires Inv(s, width) && Lists(lists, OfKind(s.files, JsLeakList)) && |Dec(last.stamp)| == width
    requires last.heap.Some? ==> last.heap != Some(JsLeakList)
    requires Own(s.files, s.pid, s.tid) == Written(BaseName(s.pid, s.tid, last.stamp), last.heap)
    ensures lists != []
    ensures Own(s.files - LastSet(s.files, lists, Prefix(s.pid, s.tid)), s.pid, s.tid) == {}
            <==> NewestFirst(lists)[0] == FileName(s.pid, s.tid, last.stamp, JsLeakList)
  {
    hide TimeStamp, WellFormed, Dec, AllWellFormed, AtMostTwoPerStamp, Paired, NewestFirst;
    var base := BaseName(s.pid, s.tid, last.stamp);
    var list := FileName(s.pid, s.tid, last.stamp, JsLeakList);
    SuffixTellsKind(base, JsLeakList, JsLeakList);
    assert list in Own(s.files, s.pid, s.tid);
    assert list in lists;
    NewestIsListed(lists, OfKind(s.files, JsLeakList));
    var newest := NewestFirst(lists)[0];
    if newest == list {
      TimeStampRoundTrip(s.pid, s.tid, last.stamp, JsLeakList);
      OwnSetIsLastSet(s, last);
      assert LastSet(s.files, lists, Prefix(s.pid, s.tid)) >= Own(s.files, s.pid, s.tid);
    } else if Prefix(s.pid, s.tid) <= newest {
      assert newest in Own(s.files, s.pid, s.tid);
      if last.heap.Some? {
        SuffixTellsKind(base, last.heap.value, JsLeakList);
      }
    }
  }

  /** With only this one set of its own, the raw heap is there exactly if the set has one. */
  lemma OwnSetIsLastSet(s: State, last: Call)
    requires last.heap.Some? ==> last.heap != Some(JsLeakList)
    requires Own(s.files, s.pid, s.tid) == Written(BaseName(s.pid, s.tid, last.stamp), last.heap)
    ensures FileName(s.pid, s.tid, last.stamp, RawHeap) in s.files <==> last.heap == Some(RawHeap)
  {
    hide TimeStamp, Dec;
    var raw := FileName(s.pid, s.tid, last.stamp, RawHeap);
    SuffixesDiffer(BaseName(s.pid, s.tid, last.stamp));
    PrefixTellsOwner(s.pid, s.tid, last.stamp, RawHeap, s.pid, s.tid);
    assert raw in s.files <==> raw in Own(s.files, s.pid, s.tid);
    assert raw in Written(BaseName(s.pid, s.tid, last.stamp), last.heap) <==> last.heap == Some(RawHeap);
  }

  /** The process has exactly the set of its last dump in the directory, the newest one there. */
  ghost predicate OnlyLastSet(s: State, last: Call, width: nat) {
    && !s.first && |Dec(last.stamp)| == width
    && (last.heap.Some? ==> last.heap != Some(JsLeakList))
    && Own(s.files, s.pid, s.tid) == Written(BaseName(s.pid, s.tid, last.stamp), last.heap)
    && forall f | f in s.files && f !in Own(s.files, s.pid, s.tid) :: TimeStamp(f) < last.stamp
  }

  lemma NewestListIsOwn(s: State, last: Call, lists: seq<string>, width: nat)
    requires Inv(s, width) && OnlyLastSet(s, last, width)
    requires Lists(lists, OfKind(s.files, JsLeakList))
    ensures Own(s.files - LastSet(s.files, lists, Prefix(s.pid, s.tid)), s.pid, s.tid) == {}
  {
    hide TimeStamp, WellFormed, Dec, AllWellFormed, AtMostTwoPerStamp, Paired, NewestFirst, LastSet;
    CleanUpRemovesOwn(s, last, lists, width);
    NewestIsListed(lists, OfKind(s.files, JsLeakList));
    var base := BaseName(s.pid, s.tid, last.stamp);
    TimeStampRoundTrip(s.pid, s.tid, last.stamp, JsLeakList);
    SuffixTellsKind(base, JsLeakList, JsLeakList);
    assert base + Suffix(JsLeakList) in Own(s.files, s.pid, s.tid);
    if last.heap.Some? {
      SuffixTellsKind(base, last.heap.value, JsLeakList);
    }
  }

  // ----- a directory that many share -----

  /** The process with these numbers is the one that takes the step. */
  predicate IsBy(s: State, pid: nat, tid: nat) {
    s.pid == pid && s.tid == tid
  }

  /** The last dump a process completed in a run. */
  function LastDump(s: State, steps: seq<Step>, pid: nat, tid: nat): Option<Call>
    decreases |steps|
  {
    if steps == [] then None
    else
      var front, step := steps[..|steps| - 1], steps[|steps| - 1];
      if step.Dump? && IsBy(Run(s, front), pid, tid) then Some(step.call) else LastDump(s, front, pid, tid)
  }

  /** All its files there are from that dump. */
  ghost predicate OwnFrom(files: set<string>, pid: nat, tid: nat, last: Option<Call>, width: nat) {
    match last
    case None => Own(files, pid, tid) == {}
    case Some(c) =>
      && |Dec(c.stamp)| == width && (c.heap.Some? ==> c.heap != Some(JsLeakList))
      && Own(files, pid, tid) <= Written(BaseName(pid, tid, c.stamp), c.heap)
  }

  /** Its files there are none, or the whole set of that dump. */
  ghost predicate OwnWhole(files: set<string>, pid: nat, tid: nat, last: Option<Call>) {
    Own(files, pid, tid) == {}
    || (last.Some? && Own(files, pid, tid) == Written(BaseName(pid, tid, last.value.stamp), last.value.heap))
  }

  /** What the clean-up of a dump must find to take all of them: none; or a raw heap alone, on a first dump;
      or, on a later one, a newest leak list with the process's prefix. */
  ghost predicate OwnGoes(s: State, call: Call) {
    || Own(s.files, s.pid, s.tid) == {}
    || if s.first then Own(s.files, s.pid, s.tid) <= Orphans(s.files)
       else call.lists != [] && Prefix(s.pid, s.tid) <= NewestFirst(call.lists)[0]
  }

  /** ...or else the rotation takes them. */
  ghost predicate OldSetGoes(s: State, call: Call, last: Option<Call>, max: FileLimit) {
    OwnGoes(s, call) || (last.Some? && |AsNew(Filled(s, call), last.value.stamp)| > max)
  }

  /** A dump leaves of the process's files exactly the set just written, if that is among the newest `max`
      files, or else none. */
  ghost predicate LeavesOneSet(s: State, call: Call, max: FileLimit) {
    Own(Next(s, Dump(call, max)).files, s.pid, s.tid) ==
    if |AsNew(Filled(s, call), call.stamp)| <= max then Written(BaseName(s.pid, s.tid, call.stamp), call.heap) else {}
  }

  lemma OwnOfSet(files: set<string>, pid: nat, tid: nat, last: Call, width: nat, f: string)
    requires OwnFrom(files, pid, tid, Some(last), width) && f in Own(files, pid, tid)
    ensures TimeStamp(f) == last.stamp
    ensures EndsWith(f, Suffix(JsLeakList)) ==> f == FileName(pid, tid, last.stamp, JsLeakList)
    ensures f != FileName(pid, tid, last.stamp, JsLeakList) ==>
              last.heap.Some? && f == FileName(pid, tid, last.stamp, last.heap.value)
  {
    hide TimeStamp, Dec, Prefix, Suffix;
    TimeStampRoundTrip(pid, tid, last.stamp, JsLeakList);
    if last.heap.Some? {
      TimeStampRoundTrip(pid, tid, last.stamp, last.heap.value);
      SuffixTellsKind(BaseName(pid, tid, last.stamp), last.heap.value, JsLeakList);
    }
  }

  /** A newest list of its own is that of the last dump, and its set is all the process has. */
  lemma OwnListTakesAll(s: State, last: Call, lists: seq<string>, width: nat)
    requires OwnFrom(s.files, s.pid, s.tid, Some(last), width) && Lists(lists, OfKind(s.files, JsLeakList))
    requires lists != [] && Prefix(s.pid, s.tid) <= NewestFirst(lists)[0]
    ensures Own(s.files, s.pid, s.tid) <= LastSet(s.files, lists, Prefix(s.pid, s.tid))
  {
    hide TimeStamp, Dec, Prefix, Suffix, NewestFirst, OwnFrom, EndsWith;
    NewestIsListed(lists, OfKind(s.files, JsLeakList));
    var newest := NewestFirst(lists)[0];
    OwnOfSet(s.files, s.pid, s.tid, last, width, newest);
    assert newest == FileName(s.pid, s.tid, last.stamp, JsLeakList);
    TimeStampRoundTrip(s.pid, s.tid, last.stamp, JsLeakList);
    var base := BaseName(s.pid, s.tid, last.stamp);
    var kind := if base + Suffix(RawHeap) in s.files then RawHeap else HeapSnapshot;
    assert LastSet(s.files, lists, Prefix(s.pid, s.tid)) == {base + Suffix(JsLeakList), base + Suffix(kind)};
    forall f | f in Own(s.files, s.pid, s.tid) ensures f in LastSet(s.files, lists, Prefix(s.pid, s.tid)) {
      OwnOfSet(s.files, s.pid, s.tid, last, width, f);
      OnlyOneHeap(s, last, width);
      if f != base + Suffix(JsLeakList) {
        assert f == base + Suffix(last.heap.value) && last.heap.value != JsLeakList;
      }
    }
  }

  lemma OnlyOneHeap(s: State, last: Call, width: nat)
    requires OwnFrom(s.files, s.pid, s.tid, Some(last), width)
    ensures FileName(s.pid, s.tid, last.stamp, RawHeap) in s.files ==> last.heap == Some(RawHeap)
    ensures last.heap != Some(JsLeakList)
  {
    hide TimeStamp, Dec;
    var base := BaseName(s.pid, s.tid, last.stamp);
    SuffixesDiffer(base);
    PrefixTellsOwner(s.pid, s.tid, last.stamp, RawHeap, s.pid, s.tid);
    if base + Suffix(RawHeap) in s.files {
      assert base + Suffix(RawHeap) in Own(s.files, s.pid, s.tid);
    }
  }

  lemma OwnAfterCleanUp(s: State, call: Call, last: Option<Call>, width: nat)
    requires OwnFrom(s.files, s.pid, s.tid, last, width) && Lists(call.lists, OfKind(s.files, JsLeakList))
    ensures Own(AfterCleanUp(s.files, Prefix(s.pid, s.tid), s.first, call.lists), s.pid, s.tid)
            <= Own(s.files, s.pid, s.tid)
    ensures Own(AfterCleanUp(s.files, Prefix(s.pid, s.tid), s.first, call.lists), s.pid, s.tid) == {}
            <==> OwnGoes(s, call)
  {
    hide TimeStamp, Dec, Prefix, Suffix, NewestFirst, OwnFrom, Orphans, Lists;
    var own := Own(s.files, s.pid, s.tid);
    var left := Own(AfterCleanUp(s.files, Prefix(s.pid, s.tid), s.first, call.lists), s.pid, s.tid);
    if s.first {
      assert left == own - Orphans(s.files);
      assert forall f | f in own && f !in Orphans(s.files) :: f in left;
    } else {
      assert left == own - LastSet(s.files, call.lists, Prefix(s.pid, s.tid));
      if own != {} && call.lists != [] && Prefix(s.pid, s.tid) <= NewestFirst(call.lists)[0] {
        FilesHaveDump(s.files, s.pid, s.tid, last, width);
        OwnListTakesAll(s, last.value, call.lists, width);
      }
    }
  }

  lemma FilesHaveDump(files: set<string>, pid: nat, tid: nat, last: Option<Call>, width: nat)
    requires OwnFrom(files, pid, tid, last, width) && Own(files, pid, tid) != {}
    ensures last.Some?
  {}

  /** One dump of a process all of whose files are from its last one: it leaves one set if and only if the
      old files go. */
  lemma OwnAfterDump(s: State, call: Call, last: Option<Call>, max: FileLimit, width: nat)
    requires Inv(s, width) && CallAllowed(s, call, width) && OwnFrom(s.files, s.pid, s.tid, last, width)
    ensures LeavesOneSet(s, call, max) <==> OldSetGoes(s, call, last, max)
  {
    DumpIsDone(s, call, max, width);
    WrittenFits(s.pid, s.tid, call, width);
    ListMustBeWritten(s, call);
    ListingOfCall(s, call, width);
    OwnAfterCleanUp(s, call, last, width);
    var cleaned := AfterCleanUp(s.files, Prefix(s.pid, s.tid), s.first, call.lists);
    var added := Written(BaseName(s.pid, s.tid, call.stamp), call.heap);
    FilledIs(s, call);
    forall f | f in Own(cleaned, s.pid, s.tid) ensures last.Some? && TimeStamp(f) == last.value.stamp != call.stamp {
      FilesHaveDump(s.files, s.pid, s.tid, last, width);
      OwnOfSet(s.files, s.pid, s.tid, last.value, width, f);
      StampIsFresh(s, call, width, f);
    }
    var oldStamp := if last.Some? then last.value.stamp else 0;
    assert NewestOf(Filled(s, call), Next(s, Dump(call, max)).files, max);
    hide TimeStamp, WellFormed, Dec, Prefix, BaseName, Written, AfterCleanUp, Orphans, AsNew, Filled, Inv, CallAllowed,
         OwnFrom, OwnGoes, DumpDone, LeavesNewest;
    var left := Next(s, Dump(call, max)).files;
    OwnOfNewest(cleaned, added, Filled(s, call), left, s.pid, s.tid, oldStamp, call.stamp, max);
  }

  lemma FilledIs(s: State, call: Call)
    ensures Filled(s, call) == AfterCleanUp(s.files, Prefix(s.pid, s.tid), s.first, call.lists)
                               + Written(BaseName(s.pid, s.tid, call.stamp), call.heap)
  {
    hide AfterCleanUp, Written, Prefix, BaseName;
  }

  lemma StampIsFresh(s: State, call: Call, width: nat, f: string)
    requires CallAllowed(s, call, width) && f in s.files
    ensures TimeStamp(f) != call.stamp
  {}

  /** Of old files of one time stamp and added ones of another, rotation keeps all or none of each. */
  lemma OwnOfNewest(cleaned: set<string>, added: set<string>, filled: set<string>, left: set<string>, pid: nat, tid: nat,
                    oldStamp: nat, stamp: nat, max: FileLimit)
    requires filled == cleaned + added && NewestOf(filled, left, max) && added != {}
    requires forall f | f in Own(cleaned, pid, tid) :: TimeStamp(f) == oldStamp != stamp
    requires forall f | f in added :: TimeStamp(f) == stamp && Prefix(pid, tid) <= f
    ensures Own(left, pid, tid) == (if |AsNew(filled, stamp)| <= max then added else {})
            <==> Own(cleaned, pid, tid) == {} || |AsNew(filled, oldStamp)| > max
  {
    hide TimeStamp, Prefix, AsNew;
    var kept := if |AsNew(filled, stamp)| <= max then added else {};
    var stays := if |AsNew(filled, oldStamp)| <= max then Own(cleaned, pid, tid) else {};
    assert Own(left, pid, tid) == kept + stays;
    assert kept * stays == {};
  }

  /** No step of another process adds to the files of this one. */
  lemma OthersAddNothing(s: State, step: Step, pid: nat, tid: nat, width: nat)
    requires Inv(s, width) && Allowed(s, step, width) && !IsBy(s, pid, tid)
    ensures Own(Next(s, step).files, pid, tid) <= Own(s.files, pid, tid)
  {
    hide TimeStamp, WellFormed, Dec, AfterCleanUp, Possible, DumpFiles, Prefix, KilledAt, Rotated, Filled;
    if step.Dump? || step.Killed? {
      var call := step.call;
      CleanUpMakesNoOrphans(s.files, Prefix(s.pid, s.tid), s.first, call.lists);
      FilledIs(s, call);
      WrittenByOther(s, call, pid, tid);
      if step.Dump? {
        DumpRotates(s, call, step.max, width);
        RotationIsSubset(Filled(s, call), call.all, step.max);
      } else {
        KilledIsPart(s, call, step.max, step.at);
      }
    }
  }

  lemma WrittenByOther(s: State, call: Call, pid: nat, tid: nat)
    requires !IsBy(s, pid, tid)
    ensures forall f | f in Written(BaseName(s.pid, s.tid, call.stamp), call.heap) :: !(Prefix(pid, tid) <= f)
  {
    hide Dec, Prefix;
    forall f | f in Written(BaseName(s.pid, s.tid, call.stamp), call.heap) ensures !(Prefix(pid, tid) <= f) {
      var k := if f == FileName(s.pid, s.tid, call.stamp, JsLeakList) then JsLeakList else call.heap.value;
      assert f == FileName(s.pid, s.tid, call.stamp, k);
      PrefixTellsOwner(s.pid, s.tid, call.stamp, k, pid, tid);
    }
  }

  // ----- along a run, of every dump of the process -----

  ghost predicate EachLeavesOneSet(s: State, steps: seq<Step>, pid: nat, tid: nat)
    decreases |steps|
  {
    steps == [] ||
    var front, step := steps[..|steps| - 1], steps[|steps| - 1];
    var before := Run(s, front);
    EachLeavesOneSet(s, front, pid, tid)
    && (step.Dump? && IsBy(before, pid, tid) ==> LeavesOneSet(before, step.call, step.max))
  }

  ghost predicate EachOldSetGoes(s: State, steps: seq<Step>, pid: nat, tid: nat)
    decreases |steps|
  {
    steps == [] ||
    var front, step := steps[..|steps| - 1], steps[|steps| - 1];
    var before := Run(s, front);
    EachOldSetGoes(s, front, pid, tid)
    && (step.Dump? && IsBy(before, pid, tid) ==>
          OldSetGoes(before, step.call, LastDump(s, front, pid, tid), step.max))
  }

  /** The process is not killed while it dumps. */
  predicate NotKilled(s: State, steps: seq<Step>, pid: nat, tid: nat)
    decreases |steps|
  {
    steps == [] ||
    var front, step := steps[..|steps| - 1], steps[|steps| - 1];
    NotKilled(s, front, pid, tid) && !(step.Killed? && IsBy(Run(s, front), pid, tid))
  }

  /** One dump set per process, in every run: other processes may dump, be killed, be restarted and take
      their turns between its dumps. Each dump of the process leaves exactly its own set under the process's
      prefix (or none, when newer files fill the directory) if and only if before each of them its old files
      go: there are none, or the newest leak list carries the prefix, or rotation takes them. All files
      under its prefix are then from its last dump at all times. */
  lemma {:induction false} OneSetPerProcess(s: State, steps: seq<Step>, pid: nat, tid: nat, width: nat)
    requires Inv(s, width) && AllowedRun(s, steps, width)
    requires Own(s.files, pid, tid) == {} && NotKilled(s, steps, pid, tid)
    ensures EachLeavesOneSet(s, steps, pid, tid) <==> EachOldSetGoes(s, steps, pid, tid)
    ensures EachLeavesOneSet(s, steps, pid, tid) ==>
              OwnFrom(Run(s, steps).files, pid, tid, LastDump(s, steps, pid, tid), width)
    decreases |steps|
  {
    hide Inv, Allowed, Next, Own, LeavesOneSet, OldSetGoes, OwnFrom;
    if steps == [] {
      NoneToStart(s, pid, tid, width);
    } else {
      var front, step := steps[..|steps| - 1], steps[|steps| - 1];
      OneSetPerProcess(s, front, pid, tid, width);
      DirectoryInvariant(s, front, width);
      if EachLeavesOneSet(s, front, pid, tid) {
        OneMoreStep(Run(s, front), step, LastDump(s, front, pid, tid), pid, tid, width);
      }
    }
  }

  lemma NoneToStart(s: State, pid: nat, tid: nat, width: nat)
    requires Own(s.files, pid, tid) == {}
    ensures OwnFrom(s.files, pid, tid, None, width)
  {}

  lemma OneMoreStep(s: State, step: Step, last: Option<Call>, pid: nat, tid: nat, width: nat)
    requires Inv(s, width) && Allowed(s, step, width) && OwnFrom(s.files, pid, tid, last, width)
    requires !(step.Killed? && IsBy(s, pid, tid))
    ensures step.Dump? && IsBy(s, pid, tid) ==>
              && (LeavesOneSet(s, step.call, step.max) <==> OldSetGoes(s, step.call, last, step.max))
              && (LeavesOneSet(s, step.call, step.max) ==>
                    OwnFrom(Next(s, step).files, pid, tid, Some(step.call), width))
    ensures !(step.Dump? && IsBy(s, pid, tid)) ==> OwnFrom(Next(s, step).files, pid, tid, last, width)
  {
    hide Inv, Own, OldSetGoes, Written, BaseName, AfterDump, Filled, AsNew, Dec, Possible, TimeStamp;
    if step.Dump? && IsBy(s, pid, tid) {
      OwnAfterDump(s, step.call, last, step.max, width);
    } else if !IsBy(s, pid, tid) {
      OthersAddNothing(s, step, pid, tid, width);
    }
  }

  // ----- the set stays whole in between -----

  lemma OthersCleanUpKeepsOwn(s: State, call: Call, last: Call, pid: nat, tid: nat, width: nat)
    requires !IsBy(s, pid, tid) && OwnFrom(s.files, pid, tid, Some(last), width)
    requires Own(s.files, pid, tid) == Written(BaseName(pid, tid, last.stamp), last.heap)
    ensures Own(s.files, pid, tid) <= AfterCleanUp(s.files, Prefix(s.pid, s.tid), s.first, call.lists)
  {
    hide TimeStamp, Dec, Prefix, NewestFirst, EndsWith, Suffix;
    var base := BaseName(pid, tid, last.stamp);
    forall f | f in Own(s.files, pid, tid)
      ensures f in AfterCleanUp(s.files, Prefix(s.pid, s.tid), s.first, call.lists)
    {
      if s.first {
        if EndsWith(f, Suffix(RawHeap)) {
          WrittenIsPaired(pid, tid, last, f);
        }
      } else if call.lists != [] && Prefix(s.pid, s.tid) <= NewestFirst(call.lists)[0] {
        var stamp := TimeStamp(NewestFirst(call.lists)[0]);
        PrefixTellsOwner(s.pid, s.tid, stamp, JsLeakList, pid, tid);
        PrefixTellsOwner(s.pid, s.tid, stamp, RawHeap, pid, tid);
        PrefixTellsOwner(s.pid, s.tid, stamp, HeapSnapshot, pid, tid);
      }
    }
  }

  lemma KilledKeepsCleaned(s: State, call: Call, max: FileLimit, at: Progress)
    requires !at.Rotating?
    ensures AfterCleanUp(s.files, Prefix(s.pid, s.tid), s.first, call.lists) <= KilledAt(s, call, max, at)
  {
    hide TimeStamp, Dec, Prefix, Suffix, NewestFirst, Orphans, LastSet, LastSetInOrder;
    LastSetIs(s.files, call.lists, Prefix(s.pid, s.tid));
  }

  lemma OwnTogether(files: set<string>, filled: set<string>, left: set<string>, pid: nat, tid: nat, stamp: nat,
                    max: FileLimit)
    requires NewestOf(filled, left, max) && Own(left, pid, tid) <= Own(files, pid, tid) <= filled
    requires forall f | f in Own(files, pid, tid) :: TimeStamp(f) == stamp
    ensures Own(left, pid, tid) == if |AsNew(filled, stamp)| <= max then Own(files, pid, tid) else {}
  {
    hide TimeStamp, AsNew, Prefix;
  }

  /** Another process takes the whole set away or nothing of it, unless it is killed amid its rotation. */
  lemma OthersKeepWhole(s: State, step: Step, last: Option<Call>, pid: nat, tid: nat, width: nat)
    requires Inv(s, width) && Allowed(s, step, width) && !IsBy(s, pid, tid)
    requires OwnFrom(s.files, pid, tid, last, width) && OwnWhole(s.files, pid, tid, last)
    requires step.Killed? ==> !step.at.Rotating?
    ensures OwnWhole(Next(s, step).files, pid, tid, last)
  {
    OthersAddNothing(s, step, pid, tid, width);
    if (step.Dump? || step.Killed?) && Own(s.files, pid, tid) != {} {
      FilesHaveDump(s.files, pid, tid, last, width);
      OthersCleanUpKeepsOwn(s, step.call, last.value, pid, tid, width);
      forall f | f in Own(s.files, pid, tid) ensures TimeStamp(f) == last.value.stamp {
        OwnOfSet(s.files, pid, tid, last.value, width, f);
      }
      FilledIs(s, step.call);
      if step.Dump? {
        DumpIsDone(s, step.call, step.max, width);
        assert NewestOf(Filled(s, step.call), Next(s, step).files, step.max);
            OwnTogether(s.files, Filled(s, step.call), Next(s, step).files, pid, tid, last.value.stamp, step.max);
      } else {
        KilledKeepsCleaned(s, step.call, step.max, step.at);
        hide TimeStamp, Prefix, AfterCleanUp, KilledAt, Written, BaseName, Filled;
      }
    }
  }

  /** A run as in OneSetPerProcess in which no process is killed amid its rotation: at all times the process
      has none of its files there or the whole set of its last dump. */
  lemma {:induction false} SetStaysWhole(s: State, steps: seq<Step>, pid: nat, tid: nat, width: nat)
    requires Inv(s, width) && AllowedRun(s, steps, width)
    requires Own(s.files, pid, tid) == {} && NotKilled(s, steps, pid, tid) && EachOldSetGoes(s, steps, pid, tid)
    requires forall i | 0 <= i < |steps| && steps[i].Killed? :: !steps[i].at.Rotating?
    ensures OwnWhole(Run(s, steps).files, pid, tid, LastDump(s, steps, pid, tid))
    decreases |steps|
  {
    hide Inv, Allowed, Own, LeavesOneSet, OldSetGoes, OwnFrom, AfterDump, KilledAt, Written, BaseName;
    if steps != [] {
      var front, step := steps[..|steps| - 1], steps[|steps| - 1];
      assert forall i | 0 <= i < |front| :: front[i] == steps[i];
      assert step == steps[|steps| - 1];
      SetStaysWhole(s, front, pid, tid, width);
      OneSetPerProcess(s, steps, pid, tid, width);
      OneSetPerProcess(s, front, pid, tid, width);
      DirectoryInvariant(s, front, width);
      if IsBy(Run(s, front), pid, tid) {
        OwnStepKeepsWhole(Run(s, front), step, LastDump(s, front, pid, tid), pid, tid);
      } else {
        OthersKeepWhole(Run(s, front), step, LastDump(s, front, pid, tid), pid, tid, width);
      }
    }
  }

  lemma OwnStepKeepsWhole(s: State, step: Step, last: Option<Call>, pid: nat, tid: nat)
    requires IsBy(s, pid, tid) && !step.Killed? && OwnWhole(s.files, pid, tid, last)
    requires step.Dump? ==> LeavesOneSet(s, step.call, step.max)
    ensures OwnWhole(Next(s, step).files, pid, tid, if step.Dump? then Some(step.call) else last)
  {
    hide Own, AfterDump, Written, BaseName, AsNew, Filled;
  }

  /** The old set goes and the new one is the newest. */
  lemma OneSetAfterDump(s: State, call: Call, last: Option<Call>, max: FileLimit, width: nat)
    requires Inv(s, width) && CallAllowed(s, call, width) && OwnFrom(s.files, s.pid, s.tid, last, width)
    requires OwnGoes(s, call) && forall f | f in s.files :: TimeStamp(f) < call.stamp
    ensures OnlyLastSet(Next(s, Dump(call, max)), call, width)
    ensures forall f | f in Next(s, Dump(call, max)).files :: TimeStamp(f) <= call.stamp
  {
    hide TimeStamp, WellFormed, Dec, AllWellFormed, AtMostTwoPerStamp, Paired, Possible, DumpFiles, Prefix, BaseName,
         Rotated, AfterCleanUp, Orphans, Written, Own, AsNew, OwnGoes, OwnFrom, Older;
    CleanUpMakesNoOrphans(s.files, Prefix(s.pid, s.tid), s.first, call.lists);
    WrittenFits(s.pid, s.tid, call, width);
    var added := Written(BaseName(s.pid, s.tid, call.stamp), call.heap);
    FilledIs(s, call);
    OwnAfterDump(s, call, last, max, width);
    NewestAreFew(Filled(s, call), added, call.stamp);
    RotationIsSubset(Filled(s, call), call.all, max);
    OwnAreOwn(Next(s, Dump(call, max)).files, s.pid, s.tid, added);
  }

  lemma OwnAreOwn(files: set<string>, pid: nat, tid: nat, added: set<string>)
    requires forall f | f in added :: Prefix(pid, tid) <= f
    ensures forall f | f in files && f !in Own(files, pid, tid) :: f !in added
  {
    hide Prefix;
  }

  /** One dump set per process: when one process dumps alone into the directory with rising time
      stamps, starting with none of its files there and only older ones of others, each completed
      dump leaves exactly its own set under the process's prefix. */
  lemma {:induction false} OneDumpSet(s: State, steps: seq<Step>, width: nat)
    requires s.first && Inv(s, width) && Own(s.files, s.pid, s.tid) == {}
    requires AllowedRun(s, steps, width) && steps != []
    requires forall i | 0 <= i < |steps| :: steps[i].Dump?
    requires forall i, j | 0 <= i < j < |steps| :: steps[i].call.stamp < steps[j].call.stamp
    requires forall f | f in s.files :: TimeStamp(f) < steps[0].call.stamp
    ensures Inv(Run(s, steps), width) && Run(s, steps).pid == s.pid && Run(s, steps).tid == s.tid
    ensures OnlyLastSet(Run(s, steps), steps[|steps| - 1].call, width)
    ensures forall f | f in Run(s, steps).files :: TimeStamp(f) <= steps[|steps| - 1].call.stamp
    decreases |steps|
  {
    hide TimeStamp, WellFormed, Dec, AllWellFormed, AtMostTwoPerStamp, Paired, Lists, DumpFiles, Prefix, BaseName,
         Rotated, CallAllowed;
    var last := |steps| - 1;
    var before := Run(s, steps[..last]);
    var call := steps[last].call;
    var lastCall := None;
    if last > 0 {
      OneDumpSet(s, steps[..last], width);
      assert steps[..last][last - 1] == steps[last - 1];
      lastCall := Some(steps[last - 1].call);
      ListingOfCall(before, call, width);
      NewestListIsOwn(before, lastCall.value, call.lists, width);
      OwnAfterCleanUp(before, call, lastCall, width);
    }
    OneSetAfterDump(before, call, lastCall, steps[last].max, width);
    StepKeepsInv(before, steps[last], width);
  }

  lemma ListingOfCall(s: State, call: Call, width: nat)
    requires CallAllowed(s, call, width)
    ensures Lists(call.lists, OfKind(s.files, JsLeakList))
  {}

  // ----- the failing run -----

  /** With room for everything, rotation takes nothing away. */
  lemma RoomKeepsAll(s: State, call: Call, max: FileLimit, width: nat)
    requires Inv(s, width) && CallAllowed(s, call, width) && |s.files| + 2 <= max
    ensures Next(s, Dump(call, max)).files == Filled(s, call) && |Filled(s, call)| <= |s.files| + 2
  {
    hide TimeStamp, WellFormed, Dec, Prefix, BaseName, AfterCleanUp, Written, Orphans, Older, AllWellFormed,
         AtMostTwoPerStamp, AfterDump, Possible;
    var added := Written(BaseName(s.pid, s.tid, call.stamp), call.heap);
    CleanUpMakesNoOrphans(s.files, Prefix(s.pid, s.tid), s.first, call.lists);
    FilledIs(s, call);
    WrittenFits(s.pid, s.tid, call, width);
    SubsetSize(Filled(s, call), s.files + added);
    DumpIsDone(s, call, max, width);
    forall f | f in Filled(s, call) ensures |AsNew(Filled(s, call), TimeStamp(f))| <= max {
      SubsetSize(AsNew(Filled(s, call), TimeStamp(f)), Filled(s, call));
    }
  }

  /** A first dump beside nothing but whole sets adds its files. */
  lemma FirstDumpAdds(s: State, call: Call, max: FileLimit, width: nat)
    requires Inv(s, width) && CallAllowed(s, call, width) && |s.files| + 2 <= max
    requires s.first && Paired(s.files)
    ensures var t := Next(s, Dump(call, max));
            && t.files == s.files + SetOf(s.pid, s.tid, call)
            && Inv(t, width) && Paired(t.files) && |t.files| <= |s.files| + 2
  {
    hide TimeStamp, WellFormed, Dec, Prefix, BaseName, Written, Older, AllWellFormed,
         AtMostTwoPerStamp, AfterDump, Possible, AsNew, Orphans;
    RoomKeepsAll(s, call, max, width);
    DumpIsDone(s, call, max, width);
    FilledIs(s, call);
    assert s.files - Orphans(s.files) == s.files;
  }

  /** Beside a newer set of another process, a later dump removes nothing. */
  lemma NewerSetHidesOwn(s: State, call: Call, max: FileLimit, other: Call, q: nat, tid: nat, width: nat)
    requires Inv(s, width) && CallAllowed(s, call, width) && |s.files| + 2 <= max && !s.first
    requires !IsBy(s, q, tid) && Written(BaseName(q, tid, other.stamp), other.heap) <= s.files
    requires forall f | f in s.files && !(Prefix(q, tid) <= f) :: TimeStamp(f) < other.stamp
    requires NumbersFit(q, tid, width) && |Dec(other.stamp)| == width
    ensures Next(s, Dump(call, max)).files == s.files + Written(BaseName(s.pid, s.tid, call.stamp), call.heap)
  {
    hide TimeStamp, WellFormed, Dec, Written, Older, AtMostTwoPerStamp, AfterDump, AsNew, Orphans, Prefix, Suffix,
         NewestFirst, CallAllowed;
    RoomKeepsAll(s, call, max, width);
    FilledIs(s, call);
    ListingOfCall(s, call, width);
    var list := FileName(q, tid, other.stamp, JsLeakList);
    assert list in Written(BaseName(q, tid, other.stamp), other.heap) by { WrittenHasList(q, tid, other); }
    SuffixTellsKind(BaseName(q, tid, other.stamp), JsLeakList, JsLeakList);
    TimeStampRoundTrip(q, tid, other.stamp, JsLeakList);
    assert list in OfKind(s.files, JsLeakList);
    assert list in call.lists;
    NewestIsListed(call.lists, OfKind(s.files, JsLeakList));
    var newest := NewestFirst(call.lists)[0];
    assert Prefix(q, tid) <= newest;
    if Prefix(s.pid, s.tid) <= newest {
      PrefixesExclude(newest, q, tid, s.pid, s.tid, width);
    }
  }

  lemma WrittenHasList(pid: nat, tid: nat, call: Call)
    ensures FileName(pid, tid, call.stamp, JsLeakList) in Written(BaseName(pid, tid, call.stamp), call.heap)
  {
    hide Prefix, Dec;
  }

  lemma PrefixesExclude(f: string, pid: nat, tid: nat, pid': nat, tid': nat, width: nat)
    requires WellFormed(f, width) && Prefix(pid, tid) <= f && Prefix(pid', tid') <= f
    ensures pid == pid' && tid == tid'
  {
    hide TimeStamp, Dec, Prefix;
    var p, t, s, k :| f == FileName(p, t, s, k) && |Dec(s)| == width && |Dec(p)| < width && |Dec(t)| < width;
    PrefixTellsOwner(p, t, s, k, pid, tid);
    PrefixTellsOwner(p, t, s, k, pid', tid');
  }

  /** Two sets of one process: p dumps, q dumps after it, and p dumps again. The newest list is that of q,
      so the clean-up of p removes nothing. */
  lemma TwoSetsOfOne(p: nat, q: nat, tid: nat, t1: nat, t2: nat, t3: nat, max: FileLimit, width: nat)
    returns (steps: seq<Step>, c1: Call, c3: Call)
    requires |Dec(t1)| == |Dec(t2)| == |Dec(t3)| == width && t1 < t2 && t2 != t3 && t1 != t3 && p != q
    requires NumbersFit(p, tid, width) && NumbersFit(q, tid, width) && max >= 6
    ensures AllowedRun(State({}, p, tid, true), steps, width) && NotKilled(State({}, p, tid, true), steps, p, tid)
    ensures c1.stamp == t1 && c3.stamp == t3 && |steps| == 5 && steps[4] == Dump(c3, max)
    ensures Own(Run(State({}, p, tid, true), steps).files, p, tid)
            == Written(BaseName(p, tid, t1), Some(RawHeap)) + Written(BaseName(p, tid, t3), Some(RawHeap))
  {
    hide TimeStamp, Dec, WellFormed, CallAllowed, NumbersFit, AfterDump, Written, Own, BaseName, Prefix, Inv;
    var s0 := State({}, p, tid, true);
    var c2;
    c1, c2 := TwoDumps(p, q, tid, t1, t2, max, width);
    var s1 := Next(s0, Dump(c1, max));
    var s2 := Next(s1, Restart(q, tid));
    var s3 := Next(s2, Dump(c2, max));
    var s4 := Next(s3, Resume(p, tid));
    InvOfOther(s3, s4, width);
    TwoSets(p, q, tid, c1, c2, width);
    c3 := CallFor(s4, t3, width);
    NewerSetHidesOwn(s4, c3, max, c2, q, tid, width);
    ThreeSets(p, q, tid, c1, c2, c3, width);
    steps := [Dump(c1, max), Restart(q, tid), Dump(c2, max), Resume(p, tid), Dump(c3, max)];
    FiveSteps(s0, steps, s1, s2, s3, s4, width);
    NoneKilled(s0, steps, p, tid);
  }

  function SetOf(pid: nat, tid: nat, call: Call): set<string> {
    Written(BaseName(pid, tid, call.stamp), call.heap)
  }

  lemma TwoDumps(p: nat, q: nat, tid: nat, t1: nat, t2: nat, max: FileLimit, width: nat) returns (c1: Call, c2: Call)
    requires |Dec(t1)| == |Dec(t2)| == width && t1 < t2 && p != q
    requires NumbersFit(p, tid, width) && NumbersFit(q, tid, width) && max >= 6
    ensures c1.stamp == t1 && c2.stamp == t2 && c1.heap == c2.heap == Some(RawHeap)
    ensures var s0 := State({}, p, tid, true);
            var s2 := State(Next(s0, Dump(c1, max)).files, q, tid, true);
            var s3 := Next(s2, Dump(c2, max));
            && CallAllowed(s0, c1, width) && CallAllowed(s2, c2, width)
            && s3.files == SetOf(p, tid, c1) + SetOf(q, tid, c2) && |s3.files| <= 4 && Inv(s3, width)
  {
    hide TimeStamp, Dec, CallAllowed, NumbersFit, Next, Orphans, SetOf, Inv, Paired;
    c1 := FirstSet(p, tid, t1, max, width);
    var s1 := Next(State({}, p, tid, true), Dump(c1, max));
    var s2 := State(s1.files, q, tid, true);
    InvOfOther(s1, s2, width);
    c2 := NewFirstDump(s2, t2, max, width);
  }

  lemma FirstSet(p: nat, tid: nat, stamp: nat, max: FileLimit, width: nat) returns (call: Call)
    requires |Dec(stamp)| == width && NumbersFit(p, tid, width)
    ensures var s := State({}, p, tid, true);
            var t := Next(s, Dump(call, max));
            && CallAllowed(s, call, width) && call.stamp == stamp && call.heap == Some(RawHeap)
            && t.files == SetOf(p, tid, call) && |t.files| <= 2 && Inv(t, width) && Paired(t.files)
    ensures forall f | f in SetOf(p, tid, call) :: TimeStamp(f) == stamp
  {
    hide TimeStamp, Dec, CallAllowed, NumbersFit, Next, SetOf;
    var s := State({}, p, tid, true);
    EmptyIsFine(s, width);
    hide Inv, Paired;
    call := NewFirstDump(s, stamp, max, width);
  }

  lemma NewFirstDump(s: State, stamp: nat, max: FileLimit, width: nat) returns (call: Call)
    requires Inv(s, width) && |Dec(stamp)| == width && |s.files| + 2 <= max && s.first && Paired(s.files)
    requires forall f | f in s.files :: TimeStamp(f) != stamp
    ensures CallAllowed(s, call, width) && call.stamp == stamp && call.heap == Some(RawHeap)
    ensures var t := Next(s, Dump(call, max));
            && t.files == s.files + SetOf(s.pid, s.tid, call)
            && Inv(t, width) && Paired(t.files) && |t.files| <= |s.files| + 2
    ensures forall f | f in SetOf(s.pid, s.tid, call) :: TimeStamp(f) == stamp
  {
    hide TimeStamp, Dec, CallAllowed, Next, Orphans, SetOf, AllWellFormed, AtMostTwoPerStamp, Paired;
    call := CallFor(s, stamp, width);
    FirstDumpAdds(s, call, max, width);
    FreshSet(s.pid, s.tid, call, width);
  }

  lemma InvOfOther(s: State, t: State, width: nat)
    requires Inv(s, width) && t.files == s.files && NumbersFit(t.pid, t.tid, width)
    ensures Inv(t, width)
  {}

  lemma FreshSet(pid: nat, tid: nat, call: Call, width: nat)
    requires NumbersFit(pid, tid, width) && |Dec(call.stamp)| == width
    ensures forall f | f in SetOf(pid, tid, call) :: TimeStamp(f) == call.stamp
  {
    hide TimeStamp, Dec, Written;
    WrittenFits(pid, tid, call, width);
  }

  lemma EmptyIsFine(s: State, width: nat)
    requires s.files == {} && NumbersFit(s.pid, s.tid, width)
    ensures Inv(s, width) && Paired(s.files)
  {}

  lemma TwoSets(p: nat, q: nat, tid: nat, c1: Call, c2: Call, width: nat)
    requires NumbersFit(p, tid, width) && NumbersFit(q, tid, width) && p != q
    requires |Dec(c1.stamp)| == |Dec(c2.stamp)| == width && c1.stamp < c2.stamp
    ensures SetOf(q, tid, c2) <= SetOf(p, tid, c1) + SetOf(q, tid, c2)
    ensures forall f | f in SetOf(p, tid, c1) + SetOf(q, tid, c2) :: TimeStamp(f) == c1.stamp || TimeStamp(f) == c2.stamp
    ensures forall f | f in SetOf(p, tid, c1) + SetOf(q, tid, c2) && !(Prefix(q, tid) <= f) :: TimeStamp(f) < c2.stamp
  {
    hide TimeStamp, Dec, Written, BaseName, Prefix;
    WrittenFits(p, tid, c1, width);
    WrittenFits(q, tid, c2, width);
  }

  lemma ThreeSets(p: nat, q: nat, tid: nat, c1: Call, c2: Call, c3: Call, width: nat)
    requires NumbersFit(p, tid, width) && NumbersFit(q, tid, width) && p != q
    requires |Dec(c1.stamp)| == |Dec(c2.stamp)| == |Dec(c3.stamp)| == width
    ensures Own(SetOf(p, tid, c1) + SetOf(q, tid, c2) + SetOf(p, tid, c3), p, tid)
            == SetOf(p, tid, c1) + SetOf(p, tid, c3)
  {
    hide TimeStamp, Dec, Written, BaseName, Prefix;
    WrittenFits(p, tid, c1, width);
    WrittenFits(p, tid, c3, width);
    WrittenByOther(State({}, q, tid, true), c2, p, tid);
  }

  lemma {:induction false} NoneKilled(s: State, steps: seq<Step>, pid: nat, tid: nat)
    requires forall i | 0 <= i < |steps| :: !steps[i].Killed?
    ensures NotKilled(s, steps, pid, tid)
    decreases |steps|
  {
    if steps != [] {
      NoneKilled(s, steps[..|steps| - 1], pid, tid);
    }
  }
}
