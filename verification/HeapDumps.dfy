/** The dumps one process writes into a dump directory, step by step: clean-up before a dump, the files
    it writes, and the rotation after it. Directory listings come in whatever order the file system gives
    them: the order is a parameter of each operation. */
module HeapDumps {
  import opened Common
  import opened FileNames
  import opened Sorting
  import opened DumpRotation

  // ----- what each step does to the names in the directory -----

  /** The file a raw heap belongs with. */
  function ListOf(f: string): string
    requires EndsWith(f, Suffix(RawHeap))
  {
    f[..|f| - |Suffix(RawHeap)|] + Suffix(JsLeakList)
  }

  predicate IsOrphan(files: set<string>, f: string) {
    EndsWith(f, Suffix(RawHeap)) && |f| > |Suffix(RawHeap)| && ListOf(f) !in files
  }

  function Orphans(files: set<string>): set<string> {
    set f | f in files && IsOrphan(files, f)
  }

  /** What deleteLastOldFile tries to delete. */
  function LastSet(files: set<string>, lists: seq<string>, prefix: string): set<string> {
    if lists == [] || !(prefix <= NewestFirst(lists)[0]) then {}
    else
      var base := prefix + Dec(TimeStamp(NewestFirst(lists)[0]));
      {base + Suffix(JsLeakList), base + Suffix(if base + Suffix(RawHeap) in files then RawHeap else HeapSnapshot)}
  }

  /** The files of one dump: a leak list, and a heap unless dumping heaps is switched off. */
  function Written(base: string, heap: Option<Kind>): set<string> {
    {base + Suffix(JsLeakList)} + if heap.Some? then {base + Suffix(heap.value)} else {}
  }

  function HeapKind(isRawHeap: bool): Kind {
    if isRawHeap then RawHeap else HeapSnapshot
  }

  /** The heap file that createHeapDumpFile makes. */
  function HeapFiles(base: string, isRawHeap: bool, isSync: bool): set<string> {
    if isRawHeap && isSync then {} else {base + Suffix(HeapKind(isRawHeap))}
  }

  /** One dump: the clock when it names its files, the heap it writes, and the orders in which the
      directory is listed on the way. */
  datatype Call = Call(stamp: nat, heap: Option<Kind>, raws: seq<string>, lists: seq<string>, all: seq<string>)

  function AfterCleanUp(files: set<string>, prefix: string, first: bool, lists: seq<string>): set<string> {
    if first then files - Orphans(files) else files - LastSet(files, lists, prefix)
  }

  function AfterWrite(files: set<string>, pid: nat, tid: nat, first: bool, call: Call): set<string> {
    AfterCleanUp(files, Prefix(pid, tid), first, call.lists) + Written(BaseName(pid, tid, call.stamp), call.heap)
  }

  function AfterDump(files: set<string>, pid: nat, tid: nat, first: bool, call: Call, max: nat): set<string>
    requires max >= 1
  {
    Rotated(AfterWrite(files, pid, tid, first, call), call.all, max)
  }

  /** The call's listings are listings of the directory as it is when they are taken. */
  ghost predicate Possible(files: set<string>, pid: nat, tid: nat, first: bool, call: Call) {
    && Lists(call.raws, OfKind(files, RawHeap))
    && Lists(call.lists, OfKind(files, JsLeakList))
    && Lists(call.all, DumpFiles(AfterWrite(files, pid, tid, first, call)))
  }

  // ----- the steps themselves -----

  class Directory {
    var files: set<string>

    /** unlinkSync: throws when there is no such file. */
    method Unlink(f: string) returns (ok: bool)
      modifies this
      ensures ok <==> f in old(files)
      ensures files == old(files) - {f}
    {
      ok := f in files;
      files := files - {f};
    }

    /** openSync with CREATE, or the native creation of a heap file. */
    method Create(f: string)
      modifies this
      ensures files == old(files) + {f}
    {
      files := files + {f};
    }
  }

  class HeapDumper {
    const pid: nat
    const tid: nat
    const directory: Directory
    var firstDump: bool
    var curTimeStamp: string
    var maxFileNum: nat
    var enabled: bool
    var dumpStatus: bool

    constructor (pid: nat, tid: nat, directory: Directory)
      ensures this.pid == pid && this.tid == tid && this.directory == directory
      ensures firstDump && maxFileNum == 20 && !enabled
    {
      this.pid, this.tid, this.directory := pid, tid, directory;
      firstDump, curTimeStamp, maxFileNum, enabled, dumpStatus := true, "", 20, false, true;
    }

    /** A setting that is missing or not positive stands for ten dumps; a dump has two files. */
    method SetDumpFileSaveAmount(maxStoredHeapDumps: Option<int>)
      modifies this`maxFileNum
      ensures maxFileNum >= 2 && maxFileNum % 2 == 0
      ensures maxFileNum == if maxStoredHeapDumps.Some? && maxStoredHeapDumps.value > 0
                            then 2 * maxStoredHeapDumps.value else 20
    {
      if maxStoredHeapDumps.None? || maxStoredHeapDumps.value <= 0 {
        maxFileNum := 10 * 2;
      } else {
        maxFileNum := maxStoredHeapDumps.value * 2;
      }
    }

    method GetHeapBaseName(update: bool, clock: nat) returns (name: string)
      modifies this`curTimeStamp
      ensures curTimeStamp == if update then Dec(clock) else old(curTimeStamp)
      ensures name == Prefix(pid, tid) + curTimeStamp
    {
      if update {
        curTimeStamp := Dec(clock);
      }
      name := Prefix(pid, tid) + curTimeStamp;
    }

    method DeleteUnMatchDumpFile(files: seq<string>)
      requires Lists(files, OfKind(directory.files, RawHeap))
      modifies directory
      ensures directory.files == old(directory.files) - Orphans(old(directory.files))
    {
      ghost var before := directory.files;
      for i := 0 to |files|
        invariant directory.files == before - Elements(files[..i]) * Orphans(before)
      {
        assert files[i] in files && files[..i + 1] == files[..i] + [files[i]];
        var suffix := Suffix(RawHeap);
        var suffixOffset := LastIndexFrom(files[i], suffix, |files[i]| - |suffix|);
        if suffixOffset <= 0 {
          continue;
        }
        var list := files[i][..suffixOffset] + Suffix(JsLeakList);
        NoListIsOrphan(before, files[i][..suffixOffset]);
        if list !in directory.files {
          assert files[i] !in files[..i];
          var ok := directory.Unlink(files[i]);
          assert ok;
        }
      }
      assert files[..|files|] == files;
      assert Orphans(before) <= Elements(files) by {
        forall f | f in Orphans(before) ensures f in files {}
      }
    }

    /** The failed unlinkSync of a missing heap file is caught and changes nothing. */
    method DeleteLastOldFile(files: seq<string>)
      requires Lists(files, OfKind(directory.files, JsLeakList))
      modifies directory
      ensures directory.files == old(directory.files) - LastSet(old(directory.files), files, Prefix(pid, tid))
    {
      if |files| <= 0 {
        return;
      }
      var newest := NewestFirst(files)[0];
      if !(Prefix(pid, tid) <= newest) {
        return;
      }
      var fileBaseName := Prefix(pid, tid) + Dec(TimeStamp(newest));
      var list, raw := fileBaseName + Suffix(JsLeakList), fileBaseName + Suffix(RawHeap);
      SuffixesDiffer(fileBaseName);
      var ok;
      if list in directory.files {
        ok := directory.Unlink(list);
      }
      if raw in directory.files {
        ok := directory.Unlink(raw);
      } else {
        ok := directory.Unlink(fileBaseName + Suffix(HeapSnapshot));
      }
    }

    /** The loop deletes files[i], and files[i + 1] with it when that carries the same time stamp.
        No name is deleted twice and `files[i + 1]` is always there. */
    method DeleteOldFile(listing: seq<string>)
      requires Lists(listing, DumpFiles(directory.files)) && maxFileNum >= 1
      modifies directory
      ensures directory.files == Rotated(old(directory.files), listing, maxFileNum)
    {
      hide TimeStamp, Dec, Includes, DumpFiles, Sort, Cut, Elements, Lists, OldestFirst;
      DumpFilesAreFiles(directory.files);
      ghost var before := directory.files;
      RotationCuts(before, DumpFiles(before), listing, maxFileNum);
      NothingTaken(OldestFirst(listing));
      if |listing| > maxFileNum {
        var files := OldestFirst(listing);
        var i := 0;
        while i < |files| - maxFileNum
          invariant i <= |files| && directory.files == before - Elements(files[..i])
          invariant Cut(files, maxFileNum, i) == Cut(files, maxFileNum, 0)
        {
          CutStep(files, maxFileNum, i);
          StepDeletes(files, DumpFiles(before), i);
          var ok := directory.Unlink(files[i]);
          assert ok;
          if Includes(files[i + 1], Dec(TimeStamp(files[i]))) {
            StepDeletes(files, DumpFiles(before), i + 1);
            ok := directory.Unlink(files[i + 1]);
            assert ok;
            i := i + 1;
          }
          i := i + 1;
        }
      }
    }

    /** The opening of createHeapDumpFile, and of getJsleaklistFile when no heap is dumped. */
    method CleanUp(raws: seq<string>, lists: seq<string>)
      requires Lists(raws, OfKind(directory.files, RawHeap))
      requires Lists(lists, OfKind(directory.files, JsLeakList))
      modifies directory, this`firstDump
      ensures !firstDump
      ensures directory.files == AfterCleanUp(old(directory.files), Prefix(pid, tid), old(firstDump), lists)
    {
      if firstDump {
        firstDump := false;
        DeleteUnMatchDumpFile(raws);
      } else {
        DeleteLastOldFile(lists);
      }
    }

    /** A raw heap is dumped by native code, which runs the callback when it is asked to do so asynchronously;
        the synchronous one refuses its two arguments and writes nothing. A heap snapshot comes without a
        callback. Answers whether the callback is run. */
    method CreateHeapDumpFile(isRawHeap: bool, isSync: bool, call: Call) returns (callback: bool)
      requires Lists(call.raws, OfKind(directory.files, RawHeap))
      requires Lists(call.lists, OfKind(directory.files, JsLeakList))
      modifies directory, this`firstDump, this`curTimeStamp
      ensures !firstDump && curTimeStamp == Dec(call.stamp)
      ensures directory.files == AfterCleanUp(old(directory.files), Prefix(pid, tid), old(firstDump), call.lists)
                                 + HeapFiles(BaseName(pid, tid, call.stamp), isRawHeap, isSync)
      ensures callback <==> isRawHeap && !isSync
    {
      CleanUp(call.raws, call.lists);
      var fileName := GetHeapBaseName(true, call.stamp);
      if isRawHeap {
        if !isSync {
          directory.Create(fileName + Suffix(RawHeap));
        }
      } else {
        directory.Create(fileName + Suffix(HeapSnapshot));
      }
      callback := isRawHeap && !isSync;
    }

    /** Runs when the heap is written, or alone when no heap is dumped. Returns the file names handed to the
        caller's callback, and the file whose digest goes into the leak list. When that file is missing an
        error ends it with the leak list created. */
    method GetJsleaklistFile(needSandBox: bool, isRawHeap: bool, call: Call)
      returns (fileList: seq<string>, hashed: string)
      requires maxFileNum >= 1
      requires dumpStatus ==> curTimeStamp == Dec(call.stamp)
      requires !dumpStatus ==> Lists(call.raws, OfKind(directory.files, RawHeap))
      requires !dumpStatus ==> Lists(call.lists, OfKind(directory.files, JsLeakList))
      requires var cleaned := if dumpStatus then directory.files
                              else AfterCleanUp(directory.files, Prefix(pid, tid), firstDump, call.lists);
               Lists(call.all, DumpFiles(cleaned + {FileName(pid, tid, call.stamp, JsLeakList)}))
      modifies directory, this`firstDump, this`curTimeStamp
      ensures firstDump == (old(firstDump) && dumpStatus) && curTimeStamp == Dec(call.stamp)
      ensures var cleaned := if dumpStatus then old(directory.files)
                             else AfterCleanUp(old(directory.files), Prefix(pid, tid), old(firstDump), call.lists);
              var written := cleaned + {FileName(pid, tid, call.stamp, JsLeakList)};
              if dumpStatus && FileName(pid, tid, call.stamp, HeapKind(isRawHeap)) !in old(directory.files)
              then directory.files == written && fileList == []
              else directory.files == Rotated(written, call.all, maxFileNum)
                   && fileList == ReportedFiles(needSandBox, dumpStatus, BaseName(pid, tid, call.stamp))
      ensures hashed == if dumpStatus then FileName(pid, tid, call.stamp, HeapKind(isRawHeap)) else ""
    {
      if !dumpStatus {
        CleanUp(call.raws, call.lists);
      }
      var base := GetHeapBaseName(!dumpStatus, call.stamp);
      SuffixesDiffer(base);
      directory.Create(base + Suffix(JsLeakList));
      base := GetHeapBaseName(false, call.stamp);
      hashed := if dumpStatus then base + Suffix(HeapKind(isRawHeap)) else "";
      if dumpStatus && hashed !in directory.files {
        return [], hashed;
      }
      DeleteOldFile(call.all);
      if needSandBox {
        fileList := [base + Suffix(JsLeakList), if dumpStatus then base + Suffix(RawHeap) else ""];
      } else {
        fileList := [base + Suffix(JsLeakList), base + Suffix(HeapSnapshot)];
      }
    }

    /** The dump of the DUMP callback, up to the end of its callback; `dumping` is what getDumpStatus
        answers. The callback asks for raw heaps and sandbox names. A heap snapshot comes without a leak
        list, a report and a rotation. */
    method DumpInner(needSandBox: bool, isRawHeap: bool, dumping: bool, call: Call) returns (fileList: seq<string>)
      requires maxFileNum >= 1
      requires call.heap == if dumping then Some(HeapKind(isRawHeap)) else None
      requires enabled ==> Possible(directory.files, pid, tid, firstDump, call)
      modifies directory, this`firstDump, this`curTimeStamp, this`dumpStatus
      ensures dumpStatus == dumping
      ensures !old(enabled) ==> directory.files == old(directory.files) && fileList == []
      ensures !old(enabled) ==> firstDump == old(firstDump) && curTimeStamp == old(curTimeStamp)
      ensures old(enabled) ==> !firstDump && curTimeStamp == Dec(call.stamp)
      ensures old(enabled) && (isRawHeap || !dumping) ==>
                && directory.files == AfterDump(old(directory.files), pid, tid, old(firstDump), call, maxFileNum)
                && fileList == ReportedFiles(needSandBox, dumping, BaseName(pid, tid, call.stamp))
      ensures old(enabled) && !isRawHeap && dumping ==>
                && directory.files == AfterCleanUp(old(directory.files), Prefix(pid, tid), old(firstDump), call.lists)
                                      + {FileName(pid, tid, call.stamp, HeapSnapshot)}
                && fileList == []
    {
      hide Prefix, Dec, Orphans, LastSet, Rotated, DumpFiles;
      dumpStatus := dumping;
      fileList := [];
      if !enabled {
        return;
      }
      ghost var cleaned := AfterCleanUp(directory.files, Prefix(pid, tid), firstDump, call.lists);
      var base := BaseName(pid, tid, call.stamp);
      var hashed;
      if !dumpStatus {
        assert cleaned + {base + Suffix(JsLeakList)} == AfterWrite(directory.files, pid, tid, firstDump, call);
        fileList, hashed := GetJsleaklistFile(needSandBox, isRawHeap, call);
        return;
      }
      assert cleaned + {base + Suffix(HeapKind(isRawHeap))} + {base + Suffix(JsLeakList)}
          == AfterWrite(directory.files, pid, tid, firstDump, call);
      var callback := CreateHeapDumpFile(isRawHeap, false, call);
      if callback {
        fileList, hashed := GetJsleaklistFile(needSandBox, isRawHeap, call);
      }
    }

    /** The synchronous dump, which `dump` asks for without sandbox names and raw heaps: a heap snapshot and a
        leak list. Of a raw heap it leaves the leak list alone, with no rotation and no names, unless there
        was a file of that name before. */
    method DumpInnerSync(needSandBox: bool, isRawHeap: bool, call: Call) returns (fileList: seq<string>)
      requires maxFileNum >= 1
      requires call.heap == if isRawHeap then None else Some(HeapSnapshot)
      requires enabled ==> Possible(directory.files, pid, tid, firstDump, call)
      modifies directory, this`firstDump, this`curTimeStamp
      ensures !old(enabled) ==> directory.files == old(directory.files) && fileList == []
      ensures old(enabled) ==> !firstDump && curTimeStamp == Dec(call.stamp)
      ensures var cleaned := AfterCleanUp(old(directory.files), Prefix(pid, tid), old(firstDump), call.lists);
              old(enabled) ==>
                if isRawHeap && FileName(pid, tid, call.stamp, RawHeap) !in cleaned
                then directory.files == cleaned + {FileName(pid, tid, call.stamp, JsLeakList)} && fileList == []
                else directory.files == AfterDump(old(directory.files), pid, tid, old(firstDump), call, maxFileNum)
                     && fileList == ReportedFiles(needSandBox, true, BaseName(pid, tid, call.stamp))
    {
      hide Prefix, Dec, Orphans, LastSet, Rotated, DumpFiles;
      if !enabled {
        return [];
      }
      ghost var cleaned := AfterCleanUp(directory.files, Prefix(pid, tid), firstDump, call.lists);
      var base := BaseName(pid, tid, call.stamp);
      assert cleaned + HeapFiles(base, isRawHeap, true) + {base + Suffix(JsLeakList)}
          == AfterWrite(directory.files, pid, tid, firstDump, call);
      SuffixesDiffer(base);
      var callback := CreateHeapDumpFile(isRawHeap, true, call);
      base := GetHeapBaseName(false, call.stamp);
      directory.Create(base + Suffix(JsLeakList));
      if base + Suffix(HeapKind(isRawHeap)) !in directory.files {
        return [];
      }
      DeleteOldFile(call.all);
      fileList := [base + Suffix(JsLeakList), base + Suffix(if needSandBox then RawHeap else HeapSnapshot)];
    }
  }

  /** The names given back to sandbox callers are of raw heaps, to others of heap snapshots. */
  function ReportedFiles(needSandBox: bool, dumping: bool, base: string): seq<string> {
    [base + Suffix(JsLeakList),
     if !needSandBox then base + Suffix(HeapSnapshot) else if dumping then base + Suffix(RawHeap) else ""]
  }

  /** They include every file written exactly if no heap was, or it is of the kind named. */
  lemma ReportIsComplete(needSandBox: bool, isRawHeap: bool, dumping: bool, base: string)
    ensures (forall f | f in Written(base, if dumping then Some(HeapKind(isRawHeap)) else None) ::
               f in ReportedFiles(needSandBox, dumping, base))
            <==> !dumping || needSandBox == isRawHeap
  {
    SuffixesDiffer(base);
    hide Suffix;
    var kind, report := HeapKind(isRawHeap), ReportedFiles(needSandBox, dumping, base);
    assert report[0] in report && report[1] in report;
    if dumping {
      assert base + Suffix(kind) in Written(base, Some(kind));
      assert base + Suffix(kind) in report <==> base + Suffix(kind) == report[1];
    }
  }

  /** And every file named, "" standing for none, was written, exactly if the heap written is of the kind named,
      or none is named as none was. */
  lemma ReportIsTrue(needSandBox: bool, isRawHeap: bool, dumping: bool, base: string)
    ensures (forall f | f in ReportedFiles(needSandBox, dumping, base) && f != "" ::
               f in Written(base, if dumping then Some(HeapKind(isRawHeap)) else None))
            <==> if dumping then needSandBox == isRawHeap else needSandBox
    ensures ReportedFiles(needSandBox, dumping, base)[0] == base + Suffix(JsLeakList)
  {
    SuffixesDiffer(base);
    hide Suffix;
    var report := ReportedFiles(needSandBox, dumping, base);
    assert report[0] in report && report[1] in report;
    assert base + Suffix(RawHeap) != "" && base + Suffix(HeapSnapshot) != "" by { SuffixNotEmpty(); }
  }

  // ----- small facts for the loops -----

  lemma SuffixNotEmpty()
    ensures forall k :: Suffix(k) != ""
  {}

  lemma NoListIsOrphan(files: set<string>, base: string)
    ensures base + Suffix(JsLeakList) !in Orphans(files)
  {
    SuffixTellsKind(base, JsLeakList, RawHeap);
  }

  lemma SuffixesDiffer(base: string)
    ensures base + Suffix(JsLeakList) != base + Suffix(RawHeap)
    ensures base + Suffix(JsLeakList) != base + Suffix(HeapSnapshot)
    ensures base + Suffix(RawHeap) != base + Suffix(HeapSnapshot)
  {
    SuffixTellsKind(base, JsLeakList, RawHeap);
    SuffixTellsKind(base, JsLeakList, HeapSnapshot);
    SuffixTellsKind(base, RawHeap, HeapSnapshot);
    SuffixTellsKind(base, RawHeap, RawHeap);
    SuffixTellsKind(base, HeapSnapshot, HeapSnapshot);
  }

  lemma NothingTaken(files: seq<string>)
    ensures Elements(files[..0]) == {}
  {}

  lemma StepDeletes(files: seq<string>, dumps: set<string>, i: nat)
    requires Lists(files, dumps) && i < |files|
    ensures files[i] in dumps && files[i] !in Elements(files[..i])
    ensures Elements(files[..i + 1]) == Elements(files[..i]) + {files[i]}
  {
    assert files[..i + 1] == files[..i] + [files[i]];
    assert files[i] in files;
  }
}
