/** The rotation of a dump directory: which files deleteOldFile deletes, for any names, and exactly
    when it keeps the files of one time stamp together. The directory is the set of its names. */
module DumpRotation {
  import opened FileNames
  import opened Sorting

  /** The names listFileSync lists for one suffix, and for all three. */
  function OfKind(files: set<string>, kind: Kind): set<string> {
    set f | f in files && EndsWith(f, Suffix(kind))
  }

  function DumpFiles(files: set<string>): set<string> {
    OfKind(files, HeapSnapshot) + OfKind(files, JsLeakList) + OfKind(files, RawHeap)
  }

  lemma DumpFilesAreFiles(files: set<string>)
    ensures DumpFiles(files) <= files
  {}

  function OldestFirst(listing: seq<string>): (r: seq<string>)
    ensures |r| == |listing|
  {
    Sort(listing, (f: string) => TimeStamp(f))
  }

  function NewestFirst(listing: seq<string>): (r: seq<string>)
    ensures |r| == |listing|
  {
    Sort(listing, (f: string) => -(TimeStamp(f) as int))
  }

  // ----- rotation: which prefix of the sorted list goes -----

  /** Where the loop of deleteOldFile stops when it stands at i: a step takes one name, or two
      when the next name includes the time stamp of this one. */
  function Cut(sorted: seq<string>, max: nat, i: nat): (c: nat)
    requires max >= 1 && i <= |sorted|
    ensures i <= c <= |sorted|
    ensures i + max >= |sorted| ==> c == i
    ensures i + max < |sorted| ==> |sorted| - max <= c <= |sorted| - max + 1
    decreases |sorted| - i
  {
    if i + max >= |sorted| then i
    else if Includes(sorted[i + 1], Dec(TimeStamp(sorted[i]))) then Cut(sorted, max, i + 2)
    else Cut(sorted, max, i + 1)
  }

  lemma CutStep(sorted: seq<string>, max: nat, i: nat)
    requires max >= 1 && i + max < |sorted|
    ensures Cut(sorted, max, i) ==
            Cut(sorted, max, i + if Includes(sorted[i + 1], Dec(TimeStamp(sorted[i]))) then 2 else 1)
  {}

  /** The directory after deleteOldFile, when its listing came in the given order. */
  function Rotated(files: set<string>, listing: seq<string>, max: nat): set<string>
    requires max >= 1
  {
    var sorted := OldestFirst(listing);
    files - Elements(sorted[..Cut(sorted, max, 0)])
  }

  /** The facts about one rotation, over any names `dumps` that are listed. */
  lemma RotationCuts(files: set<string>, dumps: set<string>, listing: seq<string>, max: nat)
    requires max >= 1 && dumps <= files && Lists(listing, dumps)
    ensures var sorted := OldestFirst(listing);
            var c := Cut(sorted, max, 0);
            && Lists(sorted, dumps) && |sorted| == |dumps|
            && (forall i, j | 0 <= i < j < |sorted| :: TimeStamp(sorted[i]) <= TimeStamp(sorted[j]))
            && (forall gone, kept | gone in sorted[..c] && kept in dumps - Elements(sorted[..c]) ::
                  TimeStamp(gone) <= TimeStamp(kept))
            && |dumps - Elements(sorted[..c])| == |dumps| - c
  {
    var key := (f: string) => TimeStamp(f) as int;
    var sorted := OldestFirst(listing);
    SortLists(listing, dumps, key);
    SizeOfListing(sorted, dumps);
    var c := Cut(sorted, max, 0);
    DropPrefix(sorted, dumps, key, c);
    SizeOfListing(sorted[c..], dumps - Elements(sorted[..c]));
    forall i, j | 0 <= i < j < |sorted| ensures TimeStamp(sorted[i]) <= TimeStamp(sorted[j]) {
      assert key(sorted[i]) <= key(sorted[j]);
    }
    forall gone, kept | gone in sorted[..c] && kept in dumps - Elements(sorted[..c])
      ensures TimeStamp(gone) <= TimeStamp(kept)
    {
      assert kept in sorted[c..];
      assert key(gone) <= key(kept);
    }
  }

  /** Rotation deletes the oldest dump files and nothing else, for any names at all: no kept dump
      file is older than a deleted one, and at most one dump file too many goes. */
  lemma RotationDropsOldest(files: set<string>, dumps: set<string>, listing: seq<string>, max: nat)
    requires max >= 1 && dumps == DumpFiles(files) && Lists(listing, dumps)
    ensures var left := Rotated(files, listing, max);
            && left <= files && files - left <= dumps
            && (forall gone, kept | gone in files - left && kept in dumps * left ::
                  TimeStamp(gone) <= TimeStamp(kept))
            && (|dumps| <= max ==> left == files)
            && (|dumps| > max ==> max - 1 <= |dumps * left| <= max)
  {
    hide TimeStamp, Includes, Dec, DumpFiles, Sort, Cut, OldestFirst, Elements, Lists;
    DumpFilesAreFiles(files);
    RotationCuts(files, dumps, listing, max);
    var sorted := OldestFirst(listing);
    PrefixIsPart(sorted, dumps, Cut(sorted, max, 0));
    TakenAway(files, dumps, Elements(sorted[..Cut(sorted, max, 0)]));
  }

  lemma PrefixIsPart(sorted: seq<string>, dumps: set<string>, c: nat)
    requires Lists(sorted, dumps) && c <= |sorted|
    ensures Elements(sorted[..c]) <= dumps
    ensures forall f :: f in Elements(sorted[..c]) <==> f in sorted[..c]
    ensures c == 0 ==> Elements(sorted[..c]) == {}
  {
    forall f | f in sorted[..c] ensures f in sorted {}
  }

  lemma TakenAway(files: set<string>, dumps: set<string>, gone: set<string>)
    requires gone <= dumps
    ensures files - (files - gone) <= gone && dumps * (files - gone) <= dumps - gone
    ensures dumps <= files ==> dumps * (files - gone) == dumps - gone
    ensures gone == {} ==> files - gone == files
  {}

  // ----- rotation keeps dump sets whole -----

  ghost predicate AllWellFormed(files: set<string>, width: nat) {
    forall f | f in files :: WellFormed(f, width)
  }

  ghost predicate AtMostTwoPerStamp(files: set<string>) {
    forall f, g, h | f in files && g in files && h in files
      && TimeStamp(f) == TimeStamp(g) == TimeStamp(h) :: f == g || g == h || f == h
  }

  ghost predicate Boundary(sorted: seq<string>, i: nat) {
    0 < i < |sorted| ==> TimeStamp(sorted[i - 1]) != TimeStamp(sorted[i])
  }

  /** The double step keeps the loop at the edges between time stamps. */
  lemma {:induction false} CutAtBoundary(sorted: seq<string>, max: nat, i: nat, width: nat)
    requires max >= 1 && i <= |sorted| && Boundary(sorted, i)
    requires NoRepeats(sorted)
    requires forall a, b | 0 <= a < b < |sorted| :: TimeStamp(sorted[a]) <= TimeStamp(sorted[b])
    requires AllWellFormed(Elements(sorted), width) && AtMostTwoPerStamp(Elements(sorted))
    ensures Boundary(sorted, Cut(sorted, max, i))
    decreases |sorted| - i
  {
    hide TimeStamp, WellFormed, Includes, Dec;
    if i + max < |sorted| {
      IncludesIsSameStamp(sorted[i], sorted[i + 1], width);
      CutStep(sorted, max, i);
      hide Cut;
      if TimeStamp(sorted[i]) == TimeStamp(sorted[i + 1]) {
        if i + 2 < |sorted| {
          assert sorted[i] in Elements(sorted) && sorted[i + 1] in Elements(sorted) && sorted[i + 2] in Elements(sorted);
        }
        CutAtBoundary(sorted, max, i + 2, width);
      } else {
        CutAtBoundary(sorted, max, i + 1, width);
      }
    }
  }

  lemma WellFormedIsDumpFile(files: set<string>, width: nat)
    requires AllWellFormed(files, width)
    ensures DumpFiles(files) == files
  {
    forall f | f in files ensures f in DumpFiles(files) {
      var p, t, s, k :| f == FileName(p, t, s, k) && |Dec(s)| == width && |Dec(p)| < width && |Dec(t)| < width;
      SuffixTellsKind(BaseName(p, t, s), k, k);
      assert f in OfKind(files, k);
    }
  }

  lemma AcrossCut(sorted: seq<string>, i: nat, c: nat, j: nat)
    requires i < c <= j < |sorted|
    requires forall a, b | 0 <= a < b < |sorted| :: TimeStamp(sorted[a]) <= TimeStamp(sorted[b])
    ensures TimeStamp(sorted[i]) <= TimeStamp(sorted[c - 1]) <= TimeStamp(sorted[c]) <= TimeStamp(sorted[j])
  {
    hide TimeStamp;
  }

  lemma SameSideOfBoundary(sorted: seq<string>, i: nat, c: nat, j: nat)
    requires c <= |sorted| && Boundary(sorted, c) && i < |sorted| && j < |sorted|
    requires forall a, b | 0 <= a < b < |sorted| :: TimeStamp(sorted[a]) <= TimeStamp(sorted[b])
    requires TimeStamp(sorted[i]) == TimeStamp(sorted[j]) && i < c
    ensures j < c
  {
    hide TimeStamp;
    if j >= c {
      AcrossCut(sorted, i, c, j);
    }
  }

  /** Rotation never splits a dump set: of the files of one time stamp it deletes all or none,
      whether they are one or two. */
  lemma RotationKeepsSetsWhole(files: set<string>, listing: seq<string>, max: nat, width: nat, f: string, g: string)
    requires max >= 1 && Lists(listing, DumpFiles(files))
    requires AllWellFormed(files, width) && AtMostTwoPerStamp(files)
    requires f in files && g in files && TimeStamp(f) == TimeStamp(g)
    ensures f in Rotated(files, listing, max) <==> g in Rotated(files, listing, max)
  {
    hide TimeStamp, WellFormed, Includes, Dec, DumpFiles, AtMostTwoPerStamp, AllWellFormed, Sort, Cut;
    WellFormedIsDumpFile(files, width);
    RotationCuts(files, files, listing, max);
    var sorted := OldestFirst(listing);
    var c := Cut(sorted, max, 0);
    assert Elements(sorted) == files;
    CutAtBoundary(sorted, max, 0, width);
    var i :| 0 <= i < |sorted| && sorted[i] == f;
    var j :| 0 <= j < |sorted| && sorted[j] == g;
    InPrefix(sorted, c, i);
    InPrefix(sorted, c, j);
    if i < c { SameSideOfBoundary(sorted, i, c, j); }
    if j < c { SameSideOfBoundary(sorted, j, c, i); }
  }

  // ----- exactly which sets rotation keeps whole -----

  /** The files of each time stamp are all in `left` or all gone. */
  ghost predicate KeepsWhole(files: set<string>, left: set<string>) {
    forall f, g | f in files && g in files && TimeStamp(f) == TimeStamp(g) :: f in left <==> g in left
  }

  function Older(files: set<string>, stamp: nat): set<string> {
    set f | f in files && TimeStamp(f) < stamp
  }

  ghost predicate InOrder(sorted: seq<string>) {
    forall i, j | 0 <= i < j < |sorted| :: TimeStamp(sorted[i]) <= TimeStamp(sorted[j])
  }

  /** The step at i takes the next file along. */
  predicate StepsByTwo(sorted: seq<string>, i: nat)
    requires i + 1 < |sorted|
  {
    Includes(sorted[i + 1], Dec(TimeStamp(sorted[i])))
  }

  /** The loop does not jump over a place at which it goes by one. */
  lemma {:induction false} CutPasses(sorted: seq<string>, max: nat, i: nat, b: nat)
    requires max >= 1 && i <= b && b + max <= |sorted| && (b > 0 ==> !StepsByTwo(sorted, b - 1))
    ensures Cut(sorted, max, i) == Cut(sorted, max, b)
    decreases b - i
  {
    hide TimeStamp, Includes, Dec;
    if i < b {
      CutPasses(sorted, max, i + if StepsByTwo(sorted, i) then 2 else 1, b);
    }
  }

  /** It passes through every edge between time stamps, however many files they have. */
  lemma CutFromBoundary(sorted: seq<string>, max: nat, b: nat, width: nat)
    requires max >= 1 && b + max <= |sorted| && Boundary(sorted, b)
    requires AllWellFormed(Elements(sorted), width)
    ensures Cut(sorted, max, 0) == Cut(sorted, max, b)
  {
    hide TimeStamp, WellFormed, Includes, Dec, Cut;
    if b > 0 {
      IncludesIsSameStamp(sorted[b - 1], sorted[b], width);
    }
    CutPasses(sorted, max, 0, b);
  }

  /** Within one time stamp it goes by twos: it stops where there are max files left, or one later. */
  lemma {:induction false} CutByTwos(sorted: seq<string>, max: nat, i: nat)
    requires max >= 1 && i + max <= |sorted|
    requires forall j | i <= j < |sorted| - max :: StepsByTwo(sorted, j)
    ensures Cut(sorted, max, i) == |sorted| - max + (|sorted| - max - i) % 2
    decreases |sorted| - i
  {
    hide TimeStamp, Includes, Dec;
    if i + max < |sorted| {
      assert StepsByTwo(sorted, i);
      if i + 1 + max < |sorted| {
        CutByTwos(sorted, max, i + 2);
      }
    }
  }

  lemma CutWithinStamp(sorted: seq<string>, max: nat, i: nat, width: nat)
    requires max >= 1 && i + max <= |sorted|
    requires AllWellFormed(Elements(sorted), width)
    requires forall j | i <= j <= |sorted| - max :: TimeStamp(sorted[j]) == TimeStamp(sorted[i])
    ensures Cut(sorted, max, i) == |sorted| - max + (|sorted| - max - i) % 2
  {
    hide TimeStamp, WellFormed, Includes, Dec, Cut;
    forall j | i <= j < |sorted| - max ensures StepsByTwo(sorted, j) {
      IncludesIsSameStamp(sorted[j], sorted[j + 1], width);
    }
    CutByTwos(sorted, max, i);
  }

  /** In a sorted listing the files older than a stamp come first. */
  lemma OlderComeFirst(sorted: seq<string>, files: set<string>, stamp: nat)
    requires Lists(sorted, files) && InOrder(sorted)
    ensures |Older(files, stamp)| <= |sorted| == |files|
    ensures forall i | 0 <= i < |sorted| :: TimeStamp(sorted[i]) < stamp <==> i < |Older(files, stamp)|
  {
    hide TimeStamp;
    var b := 0;
    while b < |sorted| && TimeStamp(sorted[b]) < stamp
      invariant b <= |sorted| && forall i | 0 <= i < b :: TimeStamp(sorted[i]) < stamp
    {
      b := b + 1;
    }
    assert Lists(sorted[..b], Older(files, stamp)) by {
      forall f | f in Older(files, stamp) ensures f in sorted[..b] {
        var i :| 0 <= i < |sorted| && sorted[i] == f;
        InPrefix(sorted, b, i);
      }
      forall f | f in sorted[..b] ensures f in sorted {}
    }
    SizeOfListing(sorted[..b], Older(files, stamp));
    SizeOfListing(sorted, files);
  }

  /** The loop stops at an edge between time stamps exactly if it keeps sets whole. */
  lemma WholeAtBoundary(sorted: seq<string>, files: set<string>, c: nat)
    requires Lists(sorted, files) && InOrder(sorted) && c <= |sorted|
    ensures Boundary(sorted, c) <==> KeepsWhole(files, files - Elements(sorted[..c]))
  {
    hide TimeStamp;
    var left := files - Elements(sorted[..c]);
    forall i | 0 <= i < |sorted| ensures sorted[i] in files && (sorted[i] in left <==> c <= i) {
      InPrefix(sorted, c, i);
    }
    if Boundary(sorted, c) {
      forall f, g | f in files && g in files && TimeStamp(f) == TimeStamp(g) ensures f in left <==> g in left {
        var i :| 0 <= i < |sorted| && sorted[i] == f;
        var j :| 0 <= j < |sorted| && sorted[j] == g;
        if i < c { SameSideOfBoundary(sorted, i, c, j); }
        if j < c { SameSideOfBoundary(sorted, j, c, i); }
      }
    } else {
      assert sorted[c - 1] !in left && sorted[c] in left;
    }
  }

  /** The stamp that the surplus of files reaches. */
  ghost predicate ReachedBySurplus(files: set<string>, max: nat, stamp: nat) {
    |Older(files, stamp)| <= |files| - max < |Older(files, stamp + 1)|
  }

  lemma SurplusReachesStamp(files: set<string>, listing: seq<string>, max: nat) returns (stamp: nat)
    requires 1 <= max < |files| && Lists(listing, files)
    ensures ReachedBySurplus(files, max, stamp)
  {
    hide TimeStamp, Sort, Cut;
    RotationCuts(files, files, listing, max);
    var sorted := OldestFirst(listing);
    stamp := TimeStamp(sorted[|files| - max]);
    OlderComeFirst(sorted, files, stamp);
    OlderComeFirst(sorted, files, stamp + 1);
  }

  /** Exactly how many files go, and exactly when sets stay whole, for sets of any size: with the
      surplus reaching a stamp, the surplus goes, and one file more if it takes an odd number of the
      stamp's files; the sets stay whole if that is none or all of that stamp's files. */
  lemma RotationExactly(files: set<string>, listing: seq<string>, max: nat, width: nat, stamp: nat)
    requires 1 <= max < |files| && AllWellFormed(files, width) && Lists(listing, DumpFiles(files))
    requires ReachedBySurplus(files, max, stamp)
    ensures var surplus, older, upTo := |files| - max, |Older(files, stamp)|, |Older(files, stamp + 1)|;
            var gone := surplus + (surplus - older) % 2;
            && Cut(OldestFirst(listing), max, 0) == |files - Rotated(files, listing, max)| == gone
            && (KeepsWhole(files, Rotated(files, listing, max)) <==> surplus == older || gone == upTo)
  {
    hide TimeStamp, WellFormed, Includes, Dec, DumpFiles, Sort, Cut, KeepsWhole, Boundary;
    WellFormedIsDumpFile(files, width);
    RotationCuts(files, files, listing, max);
    var sorted := OldestFirst(listing);
    assert Elements(sorted) == files;
    CutAtSurplus(sorted, files, max, width, stamp);
    var c := Cut(sorted, max, 0);
    assert files - Elements(sorted[..c]) == Rotated(files, listing, max);
    PrefixOfListing(sorted, files, c);
    WholeAtBoundary(sorted, files, c);
  }

  /** The cut, and whether it is an edge between time stamps. */
  lemma CutAtSurplus(sorted: seq<string>, files: set<string>, max: nat, width: nat, stamp: nat)
    requires 1 <= max < |files| && Lists(sorted, files) && InOrder(sorted) && AllWellFormed(Elements(sorted), width)
    requires ReachedBySurplus(files, max, stamp)
    ensures var surplus, older, upTo := |files| - max, |Older(files, stamp)|, |Older(files, stamp + 1)|;
            var c := Cut(sorted, max, 0);
            && c == surplus + (surplus - older) % 2
            && (Boundary(sorted, c) <==> surplus == older || c == upTo)
  {
    hide TimeStamp, WellFormed, Includes, Dec, Sort, Cut, Lists;
    OlderComeFirst(sorted, files, stamp);
    OlderComeFirst(sorted, files, stamp + 1);
    CutFromBoundary(sorted, max, |Older(files, stamp)|, width);
    CutWithinStamp(sorted, max, |Older(files, stamp)|, width);
  }

  lemma PrefixOfListing(sorted: seq<string>, files: set<string>, c: nat)
    requires Lists(sorted, files) && c <= |sorted|
    ensures |files - (files - Elements(sorted[..c]))| == c
  {
    assert files - (files - Elements(sorted[..c])) == Elements(sorted[..c]) by {
      forall f | f in sorted[..c] ensures f in sorted {}
    }
    SizeOfListing(sorted[..c], Elements(sorted[..c]));
  }

  lemma SubsetSize<T>(a: set<T>, b: set<T>)
    requires a <= b
    ensures |a| <= |b|
  {
    assert b == a + (b - a);
  }

  /** Sets stay whole under every limit exactly if no time stamp has more than two files. */
  lemma WholeUnderEveryLimit(files: set<string>, listing: seq<string>, width: nat)
    requires AllWellFormed(files, width) && Lists(listing, DumpFiles(files))
    ensures AtMostTwoPerStamp(files) <==> forall max | max >= 1 :: KeepsWhole(files, Rotated(files, listing, max))
  {
    hide TimeStamp, WellFormed, DumpFiles, Rotated, AtMostTwoPerStamp, AllWellFormed, Lists;
    if AtMostTwoPerStamp(files) {
      forall max, f, g | max >= 1 && f in files && g in files && TimeStamp(f) == TimeStamp(g)
        ensures f in Rotated(files, listing, max) <==> g in Rotated(files, listing, max)
      {
        RotationKeepsSetsWhole(files, listing, max, width, f, g);
      }
    } else {
      hide KeepsWhole;
      var max := SomeLimitSplits(files, listing, width);
    }
  }

  /** A stamp of three files is split by the limit that makes the surplus reach its second file. */
  lemma SomeLimitSplits(files: set<string>, listing: seq<string>, width: nat) returns (max: nat)
    requires AllWellFormed(files, width) && Lists(listing, DumpFiles(files)) && !AtMostTwoPerStamp(files)
    ensures max >= 1 && !KeepsWhole(files, Rotated(files, listing, max))
  {
    hide TimeStamp, WellFormed, DumpFiles, Rotated, AllWellFormed, Lists, KeepsWhole, AtMostTwoPerStamp;
    var stamp := StampOfThree(files);
    max := |files| - |Older(files, stamp)| - 1;
    RotationExactly(files, listing, max, width, stamp);
  }

  lemma StampOfThree(files: set<string>) returns (stamp: nat)
    requires !AtMostTwoPerStamp(files)
    ensures |Older(files, stamp)| + 3 <= |Older(files, stamp + 1)| <= |files|
  {
    hide TimeStamp;
    var f, g, h :| f in files && g in files && h in files
                   && TimeStamp(f) == TimeStamp(g) == TimeStamp(h) && f != g && g != h && f != h;
    stamp := TimeStamp(f);
    ThreeMore(Older(files, stamp), Older(files, stamp + 1), f, g, h);
    SubsetSize(Older(files, stamp + 1), files);
  }

  lemma ThreeMore(a: set<string>, b: set<string>, f: string, g: string, h: string)
    requires a <= b && f in b - a && g in b - a && h in b - a && f != g && g != h && f != h
    ensures |a| + 3 <= |b|
  {
    SubsetSize(a + {f, g, h}, b);
  }

  /** With at most two files per time stamp, a file is kept exactly if at most `max` files are as new
      as it or newer: the order of the listing does not matter. */
  lemma RotationKeepsExactly(files: set<string>, listing: seq<string>, max: nat, width: nat, f: string)
    requires max >= 1 && Lists(listing, DumpFiles(files)) && f in files
    requires AllWellFormed(files, width) && AtMostTwoPerStamp(files)
    ensures f in Rotated(files, listing, max) <==> |files - Older(files, TimeStamp(f))| <= max
  {
    hide TimeStamp, WellFormed, DumpFiles, Sort, Cut, Dec, Includes, AtMostTwoPerStamp, AllWellFormed, KeepsWhole, Older,
         Rotated, OldestFirst, Lists;
    WellFormedIsDumpFile(files, width);
    OlderSizes(files, TimeStamp(f));
    if |files| <= max {
      RotationDropsOldest(files, files, listing, max);
    } else {
      var stamp := SurplusReachesStamp(files, listing, max);
      RotationExactly(files, listing, max, width, stamp);
      WholeUnderEveryLimit(files, listing, width);
      assert KeepsWhole(files, Rotated(files, listing, max));
      var i := KeptPastCut(files, listing, max, f);
      OlderGrows(files, stamp + 1, TimeStamp(f));
      OlderGrows(files, TimeStamp(f) + 1, stamp);
    }
  }

  lemma OlderSizes(files: set<string>, stamp: nat)
    ensures |files - Older(files, stamp)| == |files| - |Older(files, stamp)|
  {
    hide TimeStamp;
    SubsetSize(Older(files, stamp), files);
  }

  lemma OlderGrows(files: set<string>, s: nat, t: nat)
    ensures s <= t ==> |Older(files, s)| <= |Older(files, t)|
  {
    hide TimeStamp;
    if s <= t {
      SubsetSize(Older(files, s), Older(files, t));
    }
  }

  /** A file is kept exactly if it stands behind the cut, at a place its stamp bounds. */
  lemma KeptPastCut(files: set<string>, listing: seq<string>, max: nat, f: string) returns (i: nat)
    requires max >= 1 && Lists(listing, files) && f in files
    ensures |Older(files, TimeStamp(f))| <= i < |Older(files, TimeStamp(f) + 1)|
    ensures f in Rotated(files, listing, max) <==> Cut(OldestFirst(listing), max, 0) <= i
  {
    hide TimeStamp, Sort, Cut, Dec, Includes;
    RotationCuts(files, files, listing, max);
    var sorted := OldestFirst(listing);
    OlderComeFirst(sorted, files, TimeStamp(f));
    OlderComeFirst(sorted, files, TimeStamp(f) + 1);
    i :| 0 <= i < |sorted| && sorted[i] == f;
    InPrefix(sorted, Cut(sorted, max, 0), i);
  }
}
