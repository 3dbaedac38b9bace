/** Whole runs over one dump directory: completed dumps of any number of processes, dumps killed
    half-way, and new processes in between. */
module DumpRuns {
  import opened Common
  import opened FileNames
  import opened Sorting
  import opened DumpRotation
  import opened HeapDumps

  /** The directory, and the process that is using it; `first` while that has not dumped yet. */
  datatype State = State(files: set<string>, pid: nat, tid: nat, first: bool)

  /** A maxFileNum as setDumpFileSaveAmount leaves it. */
  type FileLimit = n: nat | n >= 2 witness 20

  /** How far a dump is: names of the listing seen or files removed by its clean-up, files written, files
      rotated away. */
  datatype Progress = Cleaning(done: nat) | Writing(done: nat) | Rotating(done: nat)

  /** The process dumps, with its own limit; or dies on the way, and a new one follows; or a new one, or one
      that has dumped before, takes its turn. */
  datatype Step =
    | Dump(call: Call, max: FileLimit)
    | Killed(call: Call, max: FileLimit, at: Progress, pid: nat, tid: nat)
    | Restart(pid: nat, tid: nat)
    | Resume(pid: nat, tid: nat)

  function UpTo(l: seq<string>, n: nat): seq<string> {
    if n <= |l| then l[..n] else l
  }

  /** deleteLastOldFile deletes the leak list first, createHeapDumpFile writes the heap first. */
  function LastSetInOrder(files: set<string>, lists: seq<string>, prefix: string): seq<string> {
    if lists == [] || !(prefix <= NewestFirst(lists)[0]) then []
    else
      var base := prefix + Dec(TimeStamp(NewestFirst(lists)[0]));
      [base + Suffix(JsLeakList), base + Suffix(if base + Suffix(RawHeap) in files then RawHeap else HeapSnapshot)]
  }

  function WrittenInOrder(base: string, heap: Option<Kind>): seq<string> {
    (if heap.Some? then [base + Suffix(heap.value)] else []) + [base + Suffix(JsLeakList)]
  }

  /** The directory when the process dies between two file operations of a dump. */
  function KilledAt(s: State, call: Call, max: FileLimit, at: Progress): set<string> {
    match at
    case Cleaning(n) =>
      if s.first then s.files - Elements(UpTo(call.raws, n)) * Orphans(s.files)
      else s.files - Elements(UpTo(LastSetInOrder(s.files, call.lists, Prefix(s.pid, s.tid)), n))
    case Writing(n) =>
      AfterCleanUp(s.files, Prefix(s.pid, s.tid), s.first, call.lists)
      + Elements(UpTo(WrittenInOrder(BaseName(s.pid, s.tid, call.stamp), call.heap), n))
    case Rotating(n) =>
      var sorted := OldestFirst(call.all);
      Filled(s, call) - Elements(UpTo(sorted[..Cut(sorted, max, 0)], n))
  }

  /** The directory before rotation. */
  function Filled(s: State, call: Call): set<string> {
    AfterWrite(s.files, s.pid, s.tid, s.first, call)
  }

  function Next(s: State, step: Step): State {
    match step
    case Dump(call, max) => s.(files := AfterDump(s.files, s.pid, s.tid, s.first, call, max), first := false)
    case Killed(call, max, at, pid, tid) => State(KilledAt(s, call, max, at), pid, tid, true)
    case Restart(pid, tid) => State(s.files, pid, tid, true)
    case Resume(pid, tid) => State(s.files, pid, tid, false)
  }

  ghost predicate CallAllowed(s: State, call: Call, width: nat) {
    && (call.heap.Some? ==> call.heap != Some(JsLeakList))
    && |Dec(call.stamp)| == width
    && (forall f | f in s.files :: TimeStamp(f) != call.stamp)
    && Possible(s.files, s.pid, s.tid, s.first, call)
  }

  ghost predicate NumbersFit(pid: nat, tid: nat, width: nat) {
    |Dec(pid)| < width && |Dec(tid)| < width
  }

  /** Time stamps are fresh and have `width` digits; process and thread numbers have fewer. */
  ghost predicate Allowed(s: State, step: Step, width: nat) {
    match step
    case Dump(call, _) => CallAllowed(s, call, width)
    case Killed(call, _, _, pid, tid) => CallAllowed(s, call, width) && NumbersFit(pid, tid, width)
    case Restart(pid, tid) => NumbersFit(pid, tid, width)
    case Resume(pid, tid) => NumbersFit(pid, tid, width)
  }

  function Run(s: State, steps: seq<Step>): State
    decreases |steps|
  {
    if steps == [] then s else Next(Run(s, steps[..|steps| - 1]), steps[|steps| - 1])
  }

  ghost predicate AllowedRun(s: State, steps: seq<Step>, width: nat)
    decreases |steps|
  {
    steps == [] ||
    (AllowedRun(s, steps[..|steps| - 1], width) && Allowed(Run(s, steps[..|steps| - 1]), steps[|steps| - 1], width))
  }

  // ----- the invariant -----

  /** Every raw heap has its leak list. */
  ghost predicate Paired(files: set<string>) {
    Orphans(files) == {}
  }

  ghost predicate Inv(s: State, width: nat) {
    AllWellFormed(s.files, width) && AtMostTwoPerStamp(s.files) && NumbersFit(s.pid, s.tid, width)
  }

  lemma SubsetKeeps(files: set<string>, sub: set<string>, width: nat)
    requires sub <= files && AllWellFormed(files, width) && AtMostTwoPerStamp(files)
    ensures AllWellFormed(sub, width) && AtMostTwoPerStamp(sub)
  {
    hide WellFormed, TimeStamp;
  }

  lemma ListOfName(pid: nat, tid: nat, stamp: nat)
    ensures EndsWith(FileName(pid, tid, stamp, RawHeap), Suffix(RawHeap))
    ensures ListOf(FileName(pid, tid, stamp, RawHeap)) == FileName(pid, tid, stamp, JsLeakList)
  {
    ListOfStem(BaseName(pid, tid, stamp));
  }

  /** A well-formed raw heap shares its time stamp with its leak list. */
  lemma ListSharesStamp(f: string, width: nat)
    requires WellFormed(f, width) && EndsWith(f, Suffix(RawHeap))
    ensures TimeStamp(ListOf(f)) == TimeStamp(f) && |f| > |Suffix(RawHeap)|
  {
    hide TimeStamp;
    var p, t, s, k :| f == FileName(p, t, s, k) && |Dec(s)| == width && |Dec(p)| < width && |Dec(t)| < width;
    SuffixTellsKind(BaseName(p, t, s), k, RawHeap);
    ListOfName(p, t, s);
    TimeStampRoundTrip(p, t, s, RawHeap);
    TimeStampRoundTrip(p, t, s, JsLeakList);
  }

  /** The first clean-up of a process removes every orphaned raw heap; a later one makes none. */
  lemma CleanUpMakesNoOrphans(files: set<string>, prefix: string, first: bool, lists: seq<string>)
    ensures AfterCleanUp(files, prefix, first, lists) <= files
    ensures Orphans(AfterCleanUp(files, prefix, first, lists)) <= if first then {} else Orphans(files)
  {
    var left := AfterCleanUp(files, prefix, first, lists);
    forall f | f in left && EndsWith(f, Suffix(RawHeap)) && |f| > |Suffix(RawHeap)| && f !in Orphans(files)
      ensures ListOf(f) in left
    {
      var stem := f[..|f| - |Suffix(RawHeap)|];
      assert f == stem + Suffix(RawHeap);
      if first {
        NoListIsOrphan(files, stem);
      } else if lists != [] && prefix <= NewestFirst(lists)[0] {
        var base := prefix + Dec(TimeStamp(NewestFirst(lists)[0]));
        SameStem(stem, base, HeapSnapshot);
        SameStem(stem, base, RawHeap);
        SameStem(stem, base, JsLeakList);
      }
    }
  }

  /** A later clean-up removes no orphan either: the set it removes has its leak list. */
  lemma LaterCleanUpKeepsOrphan(files: set<string>, pid: nat, tid: nat, lists: seq<string>, width: nat, f: string)
    requires AllWellFormed(files, width) && Lists(lists, OfKind(files, JsLeakList)) && f in Orphans(files)
    ensures f in Orphans(AfterCleanUp(files, Prefix(pid, tid), false, lists))
  {
    hide TimeStamp, Dec, NewestFirst, EndsWith, Suffix, Prefix, WellFormed;
    if lists != [] && Prefix(pid, tid) <= NewestFirst(lists)[0] {
      NewestIsListed(lists, OfKind(files, JsLeakList));
      NewestNamesItsSet(NewestFirst(lists)[0], pid, tid, width);
      var base := Prefix(pid, tid) + Dec(TimeStamp(NewestFirst(lists)[0]));
      SuffixTellsKind(base, JsLeakList, RawHeap);
      SuffixTellsKind(base, HeapSnapshot, RawHeap);
      ListOfStem(base);
    }
  }

  lemma NewestIsListed(lists: seq<string>, s: set<string>)
    requires Lists(lists, s) && lists != []
    ensures NewestFirst(lists)[0] in s
    ensures forall f | f in s :: TimeStamp(f) <= TimeStamp(NewestFirst(lists)[0])
  {
    hide TimeStamp;
    var key := (f: string) => -(TimeStamp(f) as int);
    FirstIsLeast(lists, s, key);
    forall f | f in s ensures TimeStamp(f) <= TimeStamp(NewestFirst(lists)[0]) {
      assert key(NewestFirst(lists)[0]) <= key(f);
    }
  }

  lemma ListOfStem(base: string)
    ensures EndsWith(base + Suffix(RawHeap), Suffix(RawHeap))
    ensures ListOf(base + Suffix(RawHeap)) == base + Suffix(JsLeakList)
  {
    SuffixTellsKind(base, RawHeap, RawHeap);
    var f := base + Suffix(RawHeap);
    assert f[..|f| - |Suffix(RawHeap)|] == base;
  }

  lemma NewestNamesItsSet(newest: string, pid: nat, tid: nat, width: nat)
    requires WellFormed(newest, width) && EndsWith(newest, Suffix(JsLeakList)) && Prefix(pid, tid) <= newest
    ensures newest == Prefix(pid, tid) + Dec(TimeStamp(newest)) + Suffix(JsLeakList)
  {
    hide TimeStamp, Dec, Prefix;
    var p, t, s, k :| newest == FileName(p, t, s, k) && |Dec(s)| == width && |Dec(p)| < width && |Dec(t)| < width;
    PrefixTellsOwner(p, t, s, k, pid, tid);
    SuffixTellsKind(BaseName(p, t, s), k, JsLeakList);
    TimeStampRoundTrip(p, t, s, k);
  }

  /** After a clean-up every raw heap has its leak list if and only if the process had yet to clean up or
      every one had it before; exactly the old orphans are left otherwise. */
  lemma CleanUpPairs(files: set<string>, pid: nat, tid: nat, first: bool, lists: seq<string>, width: nat)
    requires AllWellFormed(files, width) && Lists(lists, OfKind(files, JsLeakList))
    ensures AfterCleanUp(files, Prefix(pid, tid), first, lists) <= files
    ensures Orphans(AfterCleanUp(files, Prefix(pid, tid), first, lists)) == if first then {} else Orphans(files)
    ensures Paired(AfterCleanUp(files, Prefix(pid, tid), first, lists)) <==> first || Paired(files)
  {
    hide WellFormed, Prefix, AfterCleanUp, Orphans;
    CleanUpMakesNoOrphans(files, Prefix(pid, tid), first, lists);
    if !first {
      forall f | f in Orphans(files) ensures f in Orphans(AfterCleanUp(files, Prefix(pid, tid), false, lists)) {
        LaterCleanUpKeepsOrphan(files, pid, tid, lists, width, f);
      }
    }
  }

  lemma SameStem(stem: string, base: string, kind: Kind)
    ensures stem + Suffix(JsLeakList) == base + Suffix(kind) <==> stem == base && kind == JsLeakList
  {
    if stem + Suffix(JsLeakList) == base + Suffix(kind) {
      SuffixTellsKind(stem, JsLeakList, JsLeakList);
      SuffixTellsKind(base, kind, JsLeakList);
      var s := stem + Suffix(JsLeakList);
      assert stem == s[..|s| - |Suffix(JsLeakList)|] == base;
    }
  }

  /** A fresh dump set keeps the directory well formed, makes no orphan and mends none. */
  lemma WritingKeeps(files: set<string>, pid: nat, tid: nat, call: Call, width: nat)
    requires AllWellFormed(files, width) && AtMostTwoPerStamp(files)
    requires NumbersFit(pid, tid, width) && |Dec(call.stamp)| == width
    requires call.heap.Some? ==> call.heap != Some(JsLeakList)
    requires forall f | f in files :: TimeStamp(f) != call.stamp
    ensures var after := files + Written(BaseName(pid, tid, call.stamp), call.heap);
            AllWellFormed(after, width) && AtMostTwoPerStamp(after) && Orphans(after) == Orphans(files)
  {
    hide TimeStamp, WellFormed, Dec;
    var added := Written(BaseName(pid, tid, call.stamp), call.heap);
    WrittenFits(pid, tid, call, width);
    StillAtMostTwo(files, added, call.stamp);
    hide Written, AtMostTwoPerStamp, Prefix;
    forall f | f in files + added && EndsWith(f, Suffix(RawHeap))
      ensures f in Orphans(files + added) <==> f in Orphans(files)
    {
      if f in added {
        WrittenIsPaired(pid, tid, call, f);
        assert f !in files;
      } else {
        ListSharesStamp(f, width);
        assert ListOf(f) !in added;
      }
    }
  }

  lemma WrittenIsPaired(pid: nat, tid: nat, call: Call, f: string)
    requires call.heap.Some? ==> call.heap != Some(JsLeakList)
    requires f in Written(BaseName(pid, tid, call.stamp), call.heap)
    requires EndsWith(f, Suffix(RawHeap))
    ensures ListOf(f) in Written(BaseName(pid, tid, call.stamp), call.heap)
  {
    hide TimeStamp, Dec;
    SuffixTellsKind(BaseName(pid, tid, call.stamp), JsLeakList, RawHeap);
    SuffixTellsKind(BaseName(pid, tid, call.stamp), HeapSnapshot, RawHeap);
    ListOfName(pid, tid, call.stamp);
  }

  lemma WrittenFits(pid: nat, tid: nat, call: Call, width: nat)
    requires NumbersFit(pid, tid, width) && |Dec(call.stamp)| == width
    ensures forall f | f in Written(BaseName(pid, tid, call.stamp), call.heap) ::
              WellFormed(f, width) && TimeStamp(f) == call.stamp && Prefix(pid, tid) <= f
    ensures |Written(BaseName(pid, tid, call.stamp), call.heap)| <= 2
  {
    hide TimeStamp;
    forall f | f in Written(BaseName(pid, tid, call.stamp), call.heap)
      ensures WellFormed(f, width) && TimeStamp(f) == call.stamp && Prefix(pid, tid) <= f
    {
      var k := if f == FileName(pid, tid, call.stamp, JsLeakList) then JsLeakList else call.heap.value;
      assert f == FileName(pid, tid, call.stamp, k);
      TimeStampRoundTrip(pid, tid, call.stamp, k);
      PrefixTellsOwner(pid, tid, call.stamp, k, pid, tid);
    }
  }

  lemma StillAtMostTwo(files: set<string>, added: set<string>, stamp: nat)
    requires AtMostTwoPerStamp(files) && |added| <= 2
    requires forall f | f in files :: TimeStamp(f) != stamp
    requires forall f | f in added :: TimeStamp(f) == stamp
    ensures AtMostTwoPerStamp(files + added)
  {
    hide TimeStamp;
    forall f, g, h | f in files + added && g in files + added && h in files + added
                     && TimeStamp(f) == TimeStamp(g) == TimeStamp(h)
      ensures f == g || g == h || f == h
    {
      if f in added && f != g && g != h && f != h {
        assert {f, g, h} <= added;
        SubsetSize({f, g, h}, added);
      }
    }
  }

  /** Rotation takes a raw heap and its list together: the orphans left are the old ones it keeps. */
  lemma RotationKeepsPairs(files: set<string>, listing: seq<string>, max: nat, width: nat)
    requires max >= 1 && Lists(listing, DumpFiles(files))
    requires AllWellFormed(files, width) && AtMostTwoPerStamp(files)
    ensures Orphans(Rotated(files, listing, max)) == Orphans(files) * Rotated(files, listing, max)
  {
    hide TimeStamp, WellFormed, Rotated, DumpFiles, AtMostTwoPerStamp;
    RotationIsSubset(files, listing, max);
    forall f | f in Rotated(files, listing, max) && EndsWith(f, Suffix(RawHeap))
      ensures ListOf(f) in Rotated(files, listing, max) <==> ListOf(f) in files
    {
      ListSharesStamp(f, width);
      if ListOf(f) in files {
        RotationKeepsSetsWhole(files, listing, max, width, f, ListOf(f));
      }
    }
  }

  lemma RotationIsSubset(files: set<string>, listing: seq<string>, max: nat)
    requires max >= 1
    ensures Rotated(files, listing, max) <= files
  {}

  // ----- one dump -----

  lemma WriteKeeps(s: State, call: Call, width: nat)
    requires Inv(s, width) && CallAllowed(s, call, width)
    ensures AllWellFormed(Filled(s, call), width) && AtMostTwoPerStamp(Filled(s, call))
    ensures Orphans(Filled(s, call)) == if s.first then {} else Orphans(s.files)
  {
    hide TimeStamp, WellFormed, Dec, AllWellFormed, AtMostTwoPerStamp, Paired, AfterCleanUp, Prefix, FileName, BaseName,
         Orphans, Lists;
    CleanUpPairs(s.files, s.pid, s.tid, s.first, call.lists, width);
    var cleaned := AfterCleanUp(s.files, Prefix(s.pid, s.tid), s.first, call.lists);
    SubsetKeeps(s.files, cleaned, width);
    WritingKeeps(cleaned, s.pid, s.tid, call, width);
  }

  /** The files as new as a stamp or newer. */
  function AsNew(files: set<string>, stamp: nat): set<string> {
    files - Older(files, stamp)
  }

  /** What a dump leaves in the directory: of the files there before rotation exactly those that have at
      most `max` files as new or newer, themselves included; at most `max` files in all. So the set just
      written is kept exactly if it is among the newest `max` files, as it is when it is the newest; and
      every raw heap has its leak list exactly if this was the process's first dump, or each orphan there
      was before is rotated away. */
  ghost predicate DumpDone(s: State, call: Call, files: set<string>, max: FileLimit) {
    LeavesNewest(Filled(s, call), Written(BaseName(s.pid, s.tid, call.stamp), call.heap),
                 if s.first then {} else Orphans(s.files), files, call.stamp, max)
  }

  ghost predicate LeavesNewest(filled: set<string>, added: set<string>, orphans: set<string>, files: set<string>,
                               stamp: nat, max: FileLimit) {
    && NewestOf(filled, files, max)
    && (added <= files <==> |AsNew(filled, stamp)| <= max)
    && ((forall f | f in filled - added :: TimeStamp(f) < stamp) ==> added <= files)
    && Orphans(files) == orphans * files
    && (Paired(files) <==> forall f | f in orphans :: |AsNew(filled, TimeStamp(f))| > max)
  }

  /** The rotation of a directory by the files there are. */
  ghost predicate NewestOf(filled: set<string>, files: set<string>, max: FileLimit) {
    && files <= filled && |files| <= max
    && forall f | f in filled :: f in files <==> |AsNew(filled, TimeStamp(f))| <= max
  }

  lemma RotationLeavesNewest(filled: set<string>, listing: seq<string>, max: FileLimit, width: nat)
    requires Lists(listing, DumpFiles(filled)) && AllWellFormed(filled, width) && AtMostTwoPerStamp(filled)
    ensures NewestOf(filled, Rotated(filled, listing, max), max)
  {
    hide TimeStamp, WellFormed, AllWellFormed, AtMostTwoPerStamp, Lists, DumpFiles, Rotated, Older;
    var left := Rotated(filled, listing, max);
    RotationIsSubset(filled, listing, max);
    WellFormedIsDumpFile(filled, width);
    RotationDropsOldest(filled, filled, listing, max);
    assert filled * left == left;
    forall f | f in filled ensures f in left <==> |AsNew(filled, TimeStamp(f))| <= max {
      RotationKeepsExactly(filled, listing, max, width, f);
    }
  }

  lemma DumpIsDone(s: State, call: Call, max: FileLimit, width: nat)
    requires Inv(s, width) && CallAllowed(s, call, width)
    ensures DumpDone(s, call, Next(s, Dump(call, max)).files, max)
    ensures Inv(Next(s, Dump(call, max)), width)
  {
    WriteKeeps(s, call, width);
    WrittenFits(s.pid, s.tid, call, width);
    ListMustBeWritten(s, call);
    hide TimeStamp, WellFormed, Dec, AllWellFormed, AtMostTwoPerStamp, Filled, Lists, DumpFiles, Rotated, Prefix,
         FileName, BaseName, Written, Orphans, AsNew, Paired, CallAllowed;
    DumpRotates(s, call, max, width);
    var filled, added := Filled(s, call), Written(BaseName(s.pid, s.tid, call.stamp), call.heap);
    var left := Rotated(filled, call.all, max);
    RotationLeavesNewest(filled, call.all, max, width);
    SubsetKeeps(filled, left, width);
    RotationKeepsPairs(filled, call.all, max, width);
    if forall f | f in filled - added :: TimeStamp(f) < call.stamp {
      NewestSurvives(filled, added, call.all, call.stamp, max, width);
    }
    hide NewestOf, LeavesNewest;
    NewestOfAnswers(filled, added, left, call.stamp, max);
  }

  lemma DumpRotates(s: State, call: Call, max: FileLimit, width: nat)
    requires CallAllowed(s, call, width)
    ensures Lists(call.all, DumpFiles(Filled(s, call)))
    ensures Next(s, Dump(call, max)) == State(Rotated(Filled(s, call), call.all, max), s.pid, s.tid, false)
  {
    hide TimeStamp, Dec, Lists, DumpFiles, Rotated, AfterCleanUp;
  }

  lemma NewestOfAnswers(filled: set<string>, added: set<string>, left: set<string>, stamp: nat, max: FileLimit)
    requires NewestOf(filled, left, max) && Orphans(left) == Orphans(filled) * left
    requires added != {} && added <= filled && |added| <= 2 && forall f | f in added :: TimeStamp(f) == stamp
    requires (forall f | f in filled - added :: TimeStamp(f) < stamp) ==> added <= left
    ensures LeavesNewest(filled, added, Orphans(filled), left, stamp, max)
  {
    hide TimeStamp, Orphans, AsNew;
    OrphansAreFiles(filled);
    assert Paired(left) <==> forall f | f in Orphans(filled) :: f !in left by {
      assert forall f | f in Orphans(filled) && f in left :: f in Orphans(left);
    }
  }

  lemma NewestAreFew(filled: set<string>, added: set<string>, stamp: nat)
    requires |added| <= 2 && forall f | f in filled - added :: TimeStamp(f) < stamp
    ensures |AsNew(filled, stamp)| <= 2
  {
    hide TimeStamp;
    SubsetSize(AsNew(filled, stamp), added);
  }

  /** A set newer than everything else survives rotation. */
  lemma NewestSurvives(files: set<string>, added: set<string>, listing: seq<string>, stamp: nat, max: FileLimit,
                       width: nat)
    requires Lists(listing, DumpFiles(files)) && AllWellFormed(files, width) && AtMostTwoPerStamp(files)
    requires added <= files && |added| <= 2
    requires forall f | f in files :: if f in added then TimeStamp(f) == stamp else TimeStamp(f) < stamp
    ensures added <= Rotated(files, listing, max)
  {
    hide TimeStamp, AllWellFormed, AtMostTwoPerStamp, Lists, DumpFiles, Rotated, AsNew;
    RotationLeavesNewest(files, listing, max, width);
    NewestAreFew(files, added, stamp);
  }

  lemma OrphansAreFiles(files: set<string>)
    ensures Orphans(files) <= files
  {}

  /** A dump always writes its leak list. */
  lemma ListMustBeWritten(s: State, call: Call)
    ensures Written(BaseName(s.pid, s.tid, call.stamp), call.heap) != {}
    ensures Written(BaseName(s.pid, s.tid, call.stamp), call.heap) <= Filled(s, call)
  {
    hide AfterCleanUp;
    assert BaseName(s.pid, s.tid, call.stamp) + Suffix(JsLeakList)
        in Written(BaseName(s.pid, s.tid, call.stamp), call.heap);
  }

  // ----- a dump cut short -----

  /** The steps of a dump meet: the end of each is the start of the next, and the last is the whole dump. */
  lemma ProgressMeets(s: State, call: Call, max: FileLimit)
    requires Possible(s.files, s.pid, s.tid, s.first, call)
    ensures KilledAt(s, call, max, Cleaning(0)) == s.files
    ensures KilledAt(s, call, max, Cleaning(|call.raws| + 2)) == KilledAt(s, call, max, Writing(0))
    ensures KilledAt(s, call, max, Writing(2)) == KilledAt(s, call, max, Rotating(0))
    ensures KilledAt(s, call, max, Rotating(|call.all|)) == AfterDump(s.files, s.pid, s.tid, s.first, call, max)
  {
    hide TimeStamp, Dec, Prefix, Suffix, DumpFiles, OldestFirst, NewestFirst, Cut, BaseName, Written, WrittenInOrder,
         LastSet, LastSetInOrder, Orphans, Lists;
    CleaningMeets(s.files, call.raws);
    LastSetIs(s.files, call.lists, Prefix(s.pid, s.tid));
    WrittenIs(BaseName(s.pid, s.tid, call.stamp), call.heap);
    var order := LastSetInOrder(s.files, call.lists, Prefix(s.pid, s.tid));
    assert UpTo(call.raws, |call.raws| + 2) == call.raws && UpTo(order, |call.raws| + 2) == order;
    assert UpTo(WrittenInOrder(BaseName(s.pid, s.tid, call.stamp), call.heap), 2)
        == WrittenInOrder(BaseName(s.pid, s.tid, call.stamp), call.heap);
  }

  lemma CleaningMeets(files: set<string>, raws: seq<string>)
    requires Lists(raws, OfKind(files, RawHeap))
    ensures Elements(raws) * Orphans(files) == Orphans(files)
  {}

  lemma LastSetIs(files: set<string>, lists: seq<string>, prefix: string)
    ensures Elements(LastSetInOrder(files, lists, prefix)) == LastSet(files, lists, prefix)
    ensures |LastSetInOrder(files, lists, prefix)| <= 2
  {
    hide TimeStamp, Dec, Suffix, NewestFirst;
  }

  lemma WrittenIs(base: string, heap: Option<Kind>)
    ensures Elements(WrittenInOrder(base, heap)) == Written(base, heap) && |WrittenInOrder(base, heap)| <= 2
  {
    hide Suffix;
  }

  lemma KilledIsPart(s: State, call: Call, max: FileLimit, at: Progress)
    ensures KilledAt(s, call, max, at) <= if at.Cleaning? then s.files else Filled(s, call)
  {
    hide TimeStamp, Dec, Prefix, Suffix, OldestFirst, NewestFirst, Cut, AfterCleanUp, Orphans;
  }

  // ----- every run -----

  lemma StepKeepsInv(s: State, step: Step, width: nat)
    requires Inv(s, width) && Allowed(s, step, width)
    ensures Inv(Next(s, step), width)
    ensures step.Dump? ==> DumpDone(s, step.call, Next(s, step).files, step.max)
  {
    hide TimeStamp, WellFormed, Dec, AllWellFormed, AtMostTwoPerStamp, AfterCleanUp, Possible, DumpDone, AfterDump,
         KilledAt;
    match step
    case Dump(call, max) => DumpIsDone(s, call, max, width);
    case Killed(call, max, at, _, _) =>
      WriteKeeps(s, call, width);
      KilledIsPart(s, call, max, at);
      if at.Cleaning? {
        SubsetKeeps(s.files, KilledAt(s, call, max, at), width);
      } else {
        SubsetKeeps(Filled(s, call), KilledAt(s, call, max, at), width);
      }
    case _ =>
  }

  /** The directory over whole runs. It may start with anything well formed; processes with limits of
      their own take turns, dumps may be killed half-way and processes restarted, in any order. After
      every completed dump the directory is as DumpDone says. */
  lemma {:induction false} DirectoryInvariant(s: State, steps: seq<Step>, width: nat)
    requires Inv(s, width) && AllowedRun(s, steps, width)
    ensures Inv(Run(s, steps), width)
    ensures forall i | 0 <= i < |steps| && steps[i].Dump? ::
              DumpDone(Run(s, steps[..i]), steps[i].call, Run(s, steps[..i + 1]).files, steps[i].max)
    decreases |steps|
  {
    hide WellFormed, AllWellFormed, AtMostTwoPerStamp, Allowed, DumpDone, Next, Inv;
    if steps != [] {
      var last := |steps| - 1;
      DirectoryInvariant(s, steps[..last], width);
      StepKeepsInv(Run(s, steps[..last]), steps[last], width);
      assert steps[..last + 1] == steps;
      forall i | 0 <= i < last && steps[i].Dump?
        ensures DumpDone(Run(s, steps[..i]), steps[i].call, Run(s, steps[..i + 1]).files, steps[i].max)
      {
        assert steps[..last][i] == steps[i];
        assert steps[..last][..i] == steps[..i] && steps[..last][..i + 1] == steps[..i + 1];
      }
    }
  }

  /** In runs where a process that has dumped before takes its turn only after a completed dump, every
      completed dump leaves each raw heap with its leak list. */
  lemma {:induction false} TurnsAfterDumpsKeepPairs(s: State, steps: seq<Step>, width: nat)
    requires s.first && Inv(s, width) && AllowedRun(s, steps, width)
    requires forall i | 0 <= i < |steps| && steps[i].Resume? :: !Run(s, steps[..i]).first
    ensures Run(s, steps).first || Paired(Run(s, steps).files)
    decreases |steps|
  {
    hide WellFormed, AllWellFormed, AtMostTwoPerStamp, Allowed, Inv, AfterDump, KilledAt;
    if steps != [] {
      var last := |steps| - 1;
      forall i | 0 <= i < last ensures steps[..last][i] == steps[i] && steps[..last][..i] == steps[..i] {}
      TurnsAfterDumpsKeepPairs(s, steps[..last], width);
      DirectoryInvariant(s, steps[..last], width);
      StepKeepsInv(Run(s, steps[..last]), steps[last], width);
      DumpKeepsPairs(Run(s, steps[..last]), steps[last]);
    }
  }

  lemma DumpKeepsPairs(s: State, step: Step)
    requires step.Dump? ==> DumpDone(s, step.call, Next(s, step).files, step.max)
    requires s.first || Paired(s.files)
    ensures step.Dump? ==> Paired(Next(s, step).files)
  {
    hide TimeStamp, Filled, Written, Orphans;
  }

  /** A heap snapshot without a leak list, as an asynchronous dump would leave it, goes with no clean-up:
      only rotation removes it. */
  lemma LoneSnapshotStays(files: set<string>, pid: nat, tid: nat, first: bool, lists: seq<string>, width: nat,
                          base: string)
    requires AllWellFormed(files, width) && Lists(lists, OfKind(files, JsLeakList))
    requires base + Suffix(HeapSnapshot) in files && base + Suffix(JsLeakList) !in files
    ensures base + Suffix(HeapSnapshot) in AfterCleanUp(files, Prefix(pid, tid), first, lists)
  {
    hide TimeStamp, Dec, NewestFirst, EndsWith, Suffix, Prefix, WellFormed;
    SuffixTellsKind(base, HeapSnapshot, RawHeap);
    if !first && lists != [] && Prefix(pid, tid) <= NewestFirst(lists)[0] {
      NewestIsListed(lists, OfKind(files, JsLeakList));
      NewestNamesItsSet(NewestFirst(lists)[0], pid, tid, width);
      var base' := Prefix(pid, tid) + Dec(TimeStamp(NewestFirst(lists)[0]));
      SuffixTellsKind(base, HeapSnapshot, HeapSnapshot);
      SuffixTellsKind(base', JsLeakList, HeapSnapshot);
      SuffixTellsKind(base', RawHeap, HeapSnapshot);
      if base + Suffix(HeapSnapshot) == base' + Suffix(HeapSnapshot) {
        SnapshotStem(base, base');
      }
    }
  }

  lemma SnapshotStem(base: string, base': string)
    requires base + Suffix(HeapSnapshot) == base' + Suffix(HeapSnapshot)
    ensures base == base'
  {
    var f := base + Suffix(HeapSnapshot);
    assert f[..|f| - |Suffix(HeapSnapshot)|] == base;
    assert f[..|f| - |Suffix(HeapSnapshot)|] == base';
  }

  // ----- the assumptions can be met, and the failing run -----

  /** Any set can be listed, so a dump with a fresh time stamp is always possible. */
  lemma ListingOf(files: set<string>) returns (l: seq<string>)
    ensures Lists(l, files)
    decreases |files|
  {
    l := [];
    if files != {} {
      var f :| f in files;
      var rest := ListingOf(files - {f});
      l := [f] + rest;
    }
  }

  lemma CallFor(s: State, stamp: nat, width: nat) returns (call: Call)
    requires |Dec(stamp)| == width && forall f | f in s.files :: TimeStamp(f) != stamp
    ensures CallAllowed(s, call, width) && call.stamp == stamp && call.heap == Some(RawHeap)
  {
    hide TimeStamp, Dec, Lists, DumpFiles, AfterCleanUp, Written;
    var raws := ListingOf(OfKind(s.files, RawHeap));
    var lists := ListingOf(OfKind(s.files, JsLeakList));
    var draft := Call(stamp, Some(RawHeap), raws, lists, []);
    var all := ListingOf(DumpFiles(Filled(s, draft)));
    call := draft.(all := all);
    assert Filled(s, call) == Filled(s, draft);
  }

  lemma DumpIntoEmpty(s: State, call: Call, max: FileLimit, width: nat)
    requires s.files == {} && NumbersFit(s.pid, s.tid, width) && CallAllowed(s, call, width)
    ensures var t := Next(s, Dump(call, max));
            Inv(t, width) && |t.files| <= 2 && forall f | f in t.files :: TimeStamp(f) == call.stamp
  {
    hide TimeStamp, WellFormed, Dec, AfterDump, Prefix, BaseName, Written, AfterCleanUp, Orphans, AsNew;
    var added := Written(BaseName(s.pid, s.tid, call.stamp), call.heap);
    DumpIsDone(s, call, max, width);
    CleanUpMakesNoOrphans(s.files, Prefix(s.pid, s.tid), s.first, call.lists);
    WrittenFits(s.pid, s.tid, call, width);
    assert Filled(s, call) <= added;
    SubsetSize(Next(s, Dump(call, max)).files, added);
  }

  /** A first dump into an empty directory is a run the theorems speak of, and leaves its two files. */
  lemma FirstDump(pid: nat, tid: nat, stamp: nat, max: FileLimit, width: nat)
    requires |Dec(stamp)| == width && NumbersFit(pid, tid, width)
    ensures var list, raw := FileName(pid, tid, stamp, JsLeakList), FileName(pid, tid, stamp, RawHeap);
            var s, call := State({}, pid, tid, true), Call(stamp, Some(RawHeap), [], [], [list, raw]);
            AllowedRun(s, [Dump(call, max)], width) && Run(s, [Dump(call, max)]).files == {list, raw}
  {
    hide TimeStamp, Dec, FileName, Includes, Prefix, EndsWith, Suffix, Sort, Cut;
    var list, raw := FileName(pid, tid, stamp, JsLeakList), FileName(pid, tid, stamp, RawHeap);
    var s, call := State({}, pid, tid, true), Call(stamp, Some(RawHeap), [], [], [list, raw]);
    SetNames(pid, tid, stamp);
    WrittenPair(pid, tid, stamp);
    var written := Filled(s, call);
    assert written == {list, raw};
    assert DumpFiles(written) == {list, raw};
    assert Possible(s.files, pid, tid, true, call);
    assert [Dump(call, max)][..0] == [];
    assert Rotated(written, [list, raw], max) == written;
  }

  lemma WrittenPair(pid: nat, tid: nat, stamp: nat)
    ensures Written(BaseName(pid, tid, stamp), Some(RawHeap)) ==
            {FileName(pid, tid, stamp, JsLeakList), FileName(pid, tid, stamp, RawHeap)}
  {
    hide Dec, Suffix;
  }

  lemma KilledLeavesOrphan(s: State, call: Call, max: FileLimit, width: nat)
    requires Inv(s, width) && CallAllowed(s, call, width) && call.heap == Some(RawHeap)
    ensures var raw, left := FileName(s.pid, s.tid, call.stamp, RawHeap), KilledAt(s, call, max, Writing(1));
            && raw in Orphans(left) && TimeStamp(raw) == call.stamp
            && left <= s.files + {raw} && |left| <= |s.files| + 1
  {
    hide TimeStamp, WellFormed, Dec, Prefix, AfterCleanUp, Includes;
    var raw, left := FileName(s.pid, s.tid, call.stamp, RawHeap), KilledAt(s, call, max, Writing(1));
    CleanUpMakesNoOrphans(s.files, Prefix(s.pid, s.tid), s.first, call.lists);
    SetNames(s.pid, s.tid, call.stamp);
    ListOfName(s.pid, s.tid, call.stamp);
    assert UpTo(WrittenInOrder(BaseName(s.pid, s.tid, call.stamp), call.heap), 1) == [raw];
    SubsetSize(left, s.files + {raw});
    assert WellFormed(raw, width) by { WrittenFits(s.pid, s.tid, call, width); }
    ListSharesStamp(raw, width);
  }

  /** With room for everything, no orphan is rotated away. */
  lemma RoomKeepsOrphan(s: State, call: Call, files: set<string>, max: FileLimit, width: nat)
    requires DumpDone(s, call, files, max) && NumbersFit(s.pid, s.tid, width) && |Dec(call.stamp)| == width
    requires !s.first && Orphans(s.files) != {} && |s.files| + 2 <= max
    ensures !Paired(files)
  {
    hide TimeStamp, WellFormed, Dec, Prefix, BaseName, AfterCleanUp, Written, Orphans, Older;
    var added := Written(BaseName(s.pid, s.tid, call.stamp), call.heap);
    CleanUpMakesNoOrphans(s.files, Prefix(s.pid, s.tid), s.first, call.lists);
    WrittenFits(s.pid, s.tid, call, width);
    SubsetSize(Filled(s, call), s.files + added);
    var f :| f in Orphans(s.files);
    SubsetSize(AsNew(Filled(s, call), TimeStamp(f)), Filled(s, call));
  }

  /** An orphan that a process which will not clean up again leaves in the directory: p dumps, q is killed
      between its heap and its leak list, and p dumps again. The raw heap of q stays without a list. */
  lemma OrphanOutlivesDump(p: nat, q: nat, tid: nat, t1: nat, t2: nat, t3: nat, max: FileLimit, width: nat)
    returns (steps: seq<Step>)
    requires |Dec(t1)| == |Dec(t2)| == |Dec(t3)| == width && t1 != t2 && t2 != t3 && t1 != t3
    requires NumbersFit(p, tid, width) && NumbersFit(q, tid, width) && max >= 5
    ensures AllowedRun(State({}, p, tid, true), steps, width)
    ensures steps != [] && steps[|steps| - 1].Dump? && !Paired(Run(State({}, p, tid, true), steps).files)
  {
    hide TimeStamp, Dec, WellFormed, CallAllowed, NumbersFit, AfterDump, KilledAt, Orphans, AllWellFormed,
         AtMostTwoPerStamp;
    var s0 := State({}, p, tid, true);
    var c1 := CallFor(s0, t1, width);
    DumpIntoEmpty(s0, c1, max, width);
    var s1 := Next(s0, Dump(c1, max));
    var s2 := Next(s1, Restart(q, tid));
    var c2 := CallFor(s2, t2, width);
    KilledLeavesOrphan(s2, c2, max, width);
    var s3 := Next(s2, Killed(c2, max, Writing(1), p, tid));
    var s4 := Next(s3, Resume(p, tid));
    var c3 := CallFor(s4, t3, width);
    steps := [Dump(c1, max), Restart(q, tid), Killed(c2, max, Writing(1), p, tid), Resume(p, tid), Dump(c3, max)];
    FiveSteps(s0, steps, s1, s2, s3, s4, width);
    StepKeepsInv(s2, Killed(c2, max, Writing(1), p, tid), width);
    DumpIsDone(s4, c3, max, width);
    RoomKeepsOrphan(s4, c3, Run(s0, steps).files, max, width);
  }

  lemma FiveSteps(s: State, steps: seq<Step>, s1: State, s2: State, s3: State, s4: State, width: nat)
    requires |steps| == 5 && Allowed(s, steps[0], width) && s1 == Next(s, steps[0])
    requires Allowed(s1, steps[1], width) && s2 == Next(s1, steps[1])
    requires Allowed(s2, steps[2], width) && s3 == Next(s2, steps[2])
    requires Allowed(s3, steps[3], width) && s4 == Next(s3, steps[3]) && Allowed(s4, steps[4], width)
    ensures AllowedRun(s, steps, width) && Run(s, steps) == Next(s4, steps[4])
  {
    hide Next, Allowed;
    assert steps[..0] == [] && steps[..5] == steps;
    for n := 0 to 5
      invariant AllowedRun(s, steps[..n], width)
      invariant Run(s, steps[..n]) == if n == 0 then s else if n == 1 then s1 else if n == 2 then s2 else
                                      if n == 3 then s3 else if n == 4 then s4 else Next(s4, steps[4])
    {
      assert steps[..n + 1][..n] == steps[..n];
    }
  }

  // ----- what two files per time stamp are needed for -----

  /** Two processes that dump in the same millisecond: four files of one time stamp, and with this
      order of listing the rotation takes both leak lists and leaves both raw heaps without. */
  lemma SameMillisecondSplitsSets(p: nat, q: nat, tid: nat, stamp: nat)
    requires p != q
    ensures var a, a' := FileName(p, tid, stamp, JsLeakList), FileName(p, tid, stamp, RawHeap);
            var b, b' := FileName(q, tid, stamp, JsLeakList), FileName(q, tid, stamp, RawHeap);
            && Lists([a, b, a', b'], DumpFiles({a, a', b, b'}))
            && Rotated({a, a', b, b'}, [a, b, a', b'], 2) == {a', b'}
  {
    hide TimeStamp, Dec, FileName, Includes, Prefix, EndsWith, Suffix, Sort;
    var a, a' := FileName(p, tid, stamp, JsLeakList), FileName(p, tid, stamp, RawHeap);
    var b, b' := FileName(q, tid, stamp, JsLeakList), FileName(q, tid, stamp, RawHeap);
    SetNames(p, tid, stamp);
    SetNames(q, tid, stamp);
    PrefixTellsOwner(p, tid, stamp, JsLeakList, p, tid);
    PrefixTellsOwner(p, tid, stamp, RawHeap, p, tid);
    PrefixTellsOwner(q, tid, stamp, JsLeakList, p, tid);
    PrefixTellsOwner(q, tid, stamp, RawHeap, p, tid);
    assert DumpFiles({a, a', b, b'}) == {a, a', b, b'};
    var l := [a, b, a', b'];
    SortOfEqualKeys(l, (f: string) => TimeStamp(f));
    assert OldestFirst(l) == l;
    assert Cut(l, 2, 0) == Cut(l, 2, 2) == 2;
    assert l[..2] == [a, b];
  }

  lemma SetNames(pid: nat, tid: nat, stamp: nat)
    ensures var list, raw := FileName(pid, tid, stamp, JsLeakList), FileName(pid, tid, stamp, RawHeap);
            && list != raw && TimeStamp(list) == stamp && TimeStamp(raw) == stamp
            && Includes(list, Dec(stamp)) && Includes(raw, Dec(stamp))
            && EndsWith(list, Suffix(JsLeakList)) && EndsWith(raw, Suffix(RawHeap))
  {
    hide TimeStamp, Dec, Includes;
    SuffixesDiffer(BaseName(pid, tid, stamp));
    SuffixTellsKind(BaseName(pid, tid, stamp), JsLeakList, JsLeakList);
    SuffixTellsKind(BaseName(pid, tid, stamp), RawHeap, RawHeap);
    TimeStampRoundTrip(pid, tid, stamp, JsLeakList);
    TimeStampRoundTrip(pid, tid, stamp, RawHeap);
  }
}
