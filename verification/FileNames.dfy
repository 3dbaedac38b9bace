/** Names of the dump files: how they are built, and how they are read back with
    `match`, `parseInt`, `includes`, `startsWith` and `lastIndexOf`. */
module FileNames {

  datatype Kind = RawHeap | JsLeakList | HeapSnapshot

  /** The word after the dot of a dump file name. */
  function Word(kind: Kind): string {
    match kind
    case RawHeap => "rawheap"
    case JsLeakList => "jsleaklist"
    case HeapSnapshot => "heapsnapshot"
  }

  function Suffix(kind: Kind): string {
    "." + Word(kind)
  }

  // ----- decimal numerals -----

  predicate IsDigit(c: char) {
    '0' <= c <= '9'
  }

  ghost predicate AllDigits(s: string) {
    forall i | 0 <= i < |s| :: IsDigit(s[i])
  }

  ghost predicate NoDigits(s: string) {
    forall i | 0 <= i < |s| :: !IsDigit(s[i])
  }

  /** `n.toString()` for a natural number. */
  function Dec(n: nat): (s: string)
    ensures |s| > 0 && AllDigits(s)
  {
    var last := [('0' as int + n % 10) as char];
    if n < 10 then last else Dec(n / 10) + last
  }

  /** `parseInt(s)` for a text of digits. */
  function ParseInt(s: string): nat
    requires AllDigits(s)
  {
    if s == "" then 0
    else 10 * ParseInt(s[..|s| - 1]) + (s[|s| - 1] as int - '0' as int)
  }

  lemma {:induction false} ParseIntOfDec(n: nat)
    ensures ParseInt(Dec(n)) == n
  {
    if n >= 10 {
      ParseIntOfDec(n / 10);
      assert Dec(n)[..|Dec(n)| - 1] == Dec(n / 10);
    } else {
      assert Dec(n)[..0] == "";
    }
  }

  // ----- names -----

  /** getHeapPrefix for a given process and thread. */
  function Prefix(pid: nat, tid: nat): string {
    "jsleakwatcher-" + Dec(pid) + "-" + Dec(tid) + "-"
  }

  /** getHeapBaseName, with the time stamp it puts in. */
  function BaseName(pid: nat, tid: nat, stamp: nat): string {
    Prefix(pid, tid) + Dec(stamp)
  }

  function FileName(pid: nat, tid: nat, stamp: nat, kind: Kind): string {
    BaseName(pid, tid, stamp) + Suffix(kind)
  }

  predicate EndsWith(s: string, t: string) {
    |t| <= |s| && s[|s| - |t|..] == t
  }

  predicate OccursAt(s: string, t: string, k: nat) {
    k + |t| <= |s| && s[k..k + |t|] == t
  }

  /** `s.includes(t)` */
  predicate Includes(s: string, t: string) {
    exists k | 0 <= k <= |s| :: OccursAt(s, t, k)
  }

  /** `s.lastIndexOf(t)`, searching backwards from k: the last occurrence up to k, or -1 for none. */
  function LastIndexFrom(s: string, t: string, k: int): (p: int)
    requires k <= |s|
    ensures p == -1 || (0 <= p <= k && OccursAt(s, t, p))
    ensures forall q: nat | p < q <= k :: !OccursAt(s, t, q)
    decreases k + 1
  {
    if k < 0 then -1 else if OccursAt(s, t, k) then k else LastIndexFrom(s, t, k - 1)
  }

  // ----- the pattern /(\d+)\.(heapsnapshot|jsleaklist|rawheap)/ -----

  /** The end of the run of digits that starts at i: what a greedy \d+ or \d* takes. */
  function RunEnd(s: string, i: nat): (e: nat)
    requires i <= |s|
    ensures i <= e <= |s| && AllDigits(s[i..e])
    ensures e < |s| ==> !IsDigit(s[e])
    decreases |s| - i
  {
    if i < |s| && IsDigit(s[i]) then RunEnd(s, i + 1) else i
  }

  predicate SuffixAt(s: string, i: nat)
    requires i <= |s|
  {
    || Suffix(HeapSnapshot) <= s[i..]
    || Suffix(JsLeakList) <= s[i..]
    || Suffix(RawHeap) <= s[i..]
  }

  /** The unanchored match: the leftmost start wins; giving back digits never helps, since a
      digit is no dot. The digits captured, or "" when there is no match. */
  function StampFrom(s: string, i: nat): (digits: string)
    requires i <= |s|
    ensures AllDigits(digits)
    decreases |s| - i
  {
    if i == |s| then ""
    else if IsDigit(s[i]) && SuffixAt(s, RunEnd(s, i)) then s[i..RunEnd(s, i)]
    else StampFrom(s, i + 1)
  }

  /** getTimestampByFileName; 0 stands for a name that does not match. */
  function TimeStamp(s: string): nat {
    ParseInt(StampFrom(s, 0))
  }

  /** Digits from i to e, and then one of the three suffixes. */
  predicate MatchAt(s: string, i: nat, e: nat) {
    i < e <= |s| && (forall k | i <= k < e :: IsDigit(s[k])) && SuffixAt(s, e)
  }

  lemma SuffixIsNoDigit(s: string, e: nat)
    requires e <= |s| && SuffixAt(s, e)
    ensures e < |s| && !IsDigit(s[e])
  {
    assert s[e..][0] == '.';
  }

  /** A match ends where the greedy run of digits does. */
  lemma MatchIsRun(s: string, i: nat, e: nat)
    requires MatchAt(s, i, e)
    ensures RunEnd(s, i) == e
  {
    SuffixIsNoDigit(s, e);
    hide SuffixAt;
    assert forall k | 0 <= k < e - i :: s[i..e][k] == s[i + k];
    RunEndIs(s, i, e);
  }

  ghost predicate NoMatch(s: string, i: nat) {
    forall e: nat :: !MatchAt(s, i, e)
  }

  ghost predicate FirstMatch(s: string, i: nat, j: nat, e: nat) {
    i <= j && MatchAt(s, j, e) && forall k: nat | i <= k < j :: NoMatch(s, k)
  }

  /** The match at one place, if there is one. */
  lemma MatchHere(s: string, i: nat)
    requires i < |s|
    ensures NoMatch(s, i) <==> !(IsDigit(s[i]) && SuffixAt(s, RunEnd(s, i)))
    ensures !NoMatch(s, i) ==> MatchAt(s, i, RunEnd(s, i))
  {
    forall e: nat | MatchAt(s, i, e) ensures RunEnd(s, i) == e && IsDigit(s[i]) {
      MatchIsRun(s, i, e);
    }
    if IsDigit(s[i]) && SuffixAt(s, RunEnd(s, i)) {
      assert forall k | i <= k < RunEnd(s, i) :: s[k] == s[i..RunEnd(s, i)][k - i];
      assert MatchAt(s, i, RunEnd(s, i));
    }
  }

  lemma EarlierStart(s: string, i: nat, j: nat, e: nat)
    requires FirstMatch(s, i + 1, j, e) && NoMatch(s, i)
    ensures FirstMatch(s, i, j, e)
  {
    hide NoMatch, MatchAt;
  }

  /** For any name: the digits read are those of the leftmost match from i on, or none if there is no match. */
  lemma {:induction false} LeftmostMatch(s: string, i: nat)
    requires i <= |s|
    ensures if forall k: nat | i <= k < |s| :: NoMatch(s, k) then StampFrom(s, i) == ""
            else exists j: nat, e: nat :: FirstMatch(s, i, j, e) && StampFrom(s, i) == s[j..e]
    decreases |s| - i
  {
    if i < |s| {
      MatchHere(s, i);
      hide NoMatch, SuffixAt;
      if NoMatch(s, i) {
        LeftmostMatch(s, i + 1);
        assert StampFrom(s, i) == StampFrom(s, i + 1);
        hide StampFrom, RunEnd, MatchAt, IsDigit;
        if !(forall k: nat | i <= k < |s| :: NoMatch(s, k)) {
          var j: nat, e: nat :| FirstMatch(s, i + 1, j, e) && StampFrom(s, i + 1) == s[j..e];
          EarlierStart(s, i, j, e);
        }
      } else {
        assert FirstMatch(s, i, i, RunEnd(s, i));
      }
    }
  }

  lemma RunEndIs(s: string, i: nat, e: nat)
    requires i <= e < |s| && AllDigits(s[i..e]) && !IsDigit(s[e])
    ensures RunEnd(s, i) == e
    decreases e - i
  {
    if i < e {
      assert s[i] == s[i..e][0];
      assert s[i + 1..e] == s[i..e][1..];
      RunEndIs(s, i + 1, e);
    }
  }

  lemma RunEndBefore(s: string, i: nat, p: nat)
    requires i <= p < |s| && !IsDigit(s[p])
    ensures RunEnd(s, i) <= p
    decreases p - i
  {
    if IsDigit(s[i]) {
      RunEndBefore(s, i + 1, p);
    }
  }

  /** No start before position `stop`, which follows a dash, can match without a dot. */
  lemma {:induction false} SkipsTo(s: string, i: nat, stop: nat)
    requires i <= stop < |s|
    requires stop > 0 ==> s[stop - 1] == '-'
    requires '.' !in s[..stop]
    ensures StampFrom(s, i) == StampFrom(s, stop)
    decreases stop - i
  {
    if i < stop {
      RunEndBefore(s, i, stop - 1);
      var e := RunEnd(s, i);
      assert s[e] == s[..stop][e];
      assert s[e..][0] != '.';
      SkipsTo(s, i + 1, stop);
    }
  }

  lemma PrefixShape(pid: nat, tid: nat)
    ensures '.' !in Prefix(pid, tid)
    ensures Prefix(pid, tid)[|Prefix(pid, tid)| - 1] == '-'
  {
    assert forall c | c in Dec(pid) + Dec(tid) :: IsDigit(c) by {
      forall c | c in Dec(pid) + Dec(tid) ensures IsDigit(c) {
        if c in Dec(pid) { } else { assert c in Dec(tid); }
      }
    }
  }

  lemma StampBetween(pre: string, d: string, suf: string)
    requires pre != "" && pre[|pre| - 1] == '-' && '.' !in pre
    requires d != "" && AllDigits(d)
    requires suf != "" && !IsDigit(suf[0]) && SuffixAt(suf, 0)
    ensures StampFrom(pre + d + suf, 0) == d
    ensures Includes(pre + d + suf, d)
  {
    var s, e := pre + d + suf, |pre| + |d|;
    assert s[..|pre|] == pre && s[|pre|..e] == d && s[e..] == suf;
    SkipsTo(s, 0, |pre|);
    assert s[e] == suf[0] && s[|pre|] == d[0];
    RunEndIs(s, |pre|, e);
    assert suf[0..] == suf;
    assert OccursAt(s, d, |pre|);
  }

  /** The time stamp put into a name is the one read out of it: the leftmost match skips the
      process and thread numbers. */
  lemma TimeStampRoundTrip(pid: nat, tid: nat, stamp: nat, kind: Kind)
    ensures TimeStamp(FileName(pid, tid, stamp, kind)) == stamp
    ensures Includes(FileName(pid, tid, stamp, kind), Dec(stamp))
  {
    PrefixShape(pid, tid);
    assert SuffixAt(Suffix(kind), 0) by { assert Suffix(kind)[0..] == Suffix(kind); }
    StampBetween(Prefix(pid, tid), Dec(stamp), Suffix(kind));
    ParseIntOfDec(stamp);
  }

  // ----- where a run of digits can occur in a name -----

  lemma OccursInParts(a: string, c: char, b: string, d: string, k: nat)
    ensures k + |d| <= |a| ==> (OccursAt(a + [c] + b, d, k) <==> OccursAt(a, d, k))
    ensures k + |d| <= |b| ==> (OccursAt(a + [c] + b, d, |a| + 1 + k) <==> OccursAt(b, d, k))
  {
    var s := a + [c] + b;
    if k + |d| <= |a| {
      assert s[k..k + |d|] == a[k..k + |d|];
    }
    if k + |d| <= |b| {
      assert s[|a| + 1 + k..|a| + 1 + k + |d|] == b[k..k + |d|];
    }
  }

  /** A run of digits lies on one side of a character that is no digit. */
  lemma IncludesSplit(a: string, c: char, b: string, d: string)
    requires !IsDigit(c) && d != "" && AllDigits(d)
    ensures Includes(a + [c] + b, d) <==> Includes(a, d) || Includes(b, d)
  {
    var s := a + [c] + b;
    if Includes(s, d) {
      var k :| 0 <= k <= |s| && OccursAt(s, d, k);
      assert !(k <= |a| < k + |d|) by {
        assert s[|a|] == c;
        forall p | k <= p < k + |d| ensures IsDigit(s[p]) {
          assert s[p] == s[k..k + |d|][p - k];
        }
      }
      if k + |d| <= |a| {
        OccursInParts(a, c, b, d, k);
      } else {
        OccursInParts(a, c, b, d, k - |a| - 1);
      }
    }
    if Includes(a, d) {
      var k :| 0 <= k <= |a| && OccursAt(a, d, k);
      OccursInParts(a, c, b, d, k);
    }
    if Includes(b, d) {
      var k :| 0 <= k <= |b| && OccursAt(b, d, k);
      OccursInParts(a, c, b, d, k);
    }
  }

  lemma NoDigitsIncluded(s: string, d: string)
    requires NoDigits(s) && d != "" && AllDigits(d)
    ensures !Includes(s, d)
  {
    forall k | 0 <= k <= |s| && k + |d| <= |s| ensures !OccursAt(s, d, k) {
      assert s[k..k + |d|][0] == s[k];
    }
  }

  /** Exactly when `includes` finds digits in a dump file name: inside one of its three
      numbers. */
  lemma DigitsInFileName(pid: nat, tid: nat, stamp: nat, kind: Kind, d: string)
    requires d != "" && AllDigits(d)
    ensures Includes(FileName(pid, tid, stamp, kind), d) <==>
            Includes(Dec(pid), d) || Includes(Dec(tid), d) || Includes(Dec(stamp), d)
  {
    var r3 := Dec(stamp) + ['.'] + Word(kind);
    var r2 := Dec(tid) + ['-'] + r3;
    var r1 := Dec(pid) + ['-'] + r2;
    PartsOfFileName(pid, tid, stamp, kind);
    hide FileName, Dec, Includes, Word;
    IncludesSplit("jsleakwatcher", '-', r1, d);
    IncludesSplit(Dec(pid), '-', r2, d);
    IncludesSplit(Dec(tid), '-', r3, d);
    IncludesSplit(Dec(stamp), '.', Word(kind), d);
    NoDigitsIncluded("jsleakwatcher", d);
    WordHasNoDigits(kind);
    NoDigitsIncluded(Word(kind), d);
  }

  lemma WordHasNoDigits(kind: Kind)
    ensures NoDigits(Word(kind))
  {}

  lemma PartsOfFileName(pid: nat, tid: nat, stamp: nat, kind: Kind)
    ensures FileName(pid, tid, stamp, kind) ==
            "jsleakwatcher" + ['-'] + (Dec(pid) + ['-'] + (Dec(tid) + ['-'] + (Dec(stamp) + ['.'] + Word(kind))))
  {
    hide Dec;
  }

  /** Names whose time stamps have `width` digits and whose process and thread numbers have
      fewer. */
  ghost predicate WellFormed(f: string, width: nat) {
    exists pid: nat, tid: nat, stamp: nat, kind ::
      f == FileName(pid, tid, stamp, kind)
      && |Dec(stamp)| == width && |Dec(pid)| < width && |Dec(tid)| < width
  }

  /** Of digits no longer than d, only d itself includes d. */
  lemma IncludesOfSameLength(e: string, d: string)
    requires |e| <= |d|
    ensures Includes(e, d) <==> e == d
  {
    if Includes(e, d) {
      var k :| 0 <= k <= |e| && OccursAt(e, d, k);
      assert e[0..|d|] == e;
    }
    if e == d {
      assert OccursAt(e, d, 0);
    }
  }

  lemma DecInjective(m: nat, n: nat)
    requires Dec(m) == Dec(n)
    ensures m == n
  {
    ParseIntOfDec(m);
    ParseIntOfDec(n);
  }

  lemma StampInFileName(pid: nat, tid: nat, stamp: nat, kind: Kind, stamp': nat)
    requires |Dec(pid)| < |Dec(stamp')| && |Dec(tid)| < |Dec(stamp')| && |Dec(stamp)| == |Dec(stamp')|
    ensures Includes(FileName(pid, tid, stamp, kind), Dec(stamp')) <==> stamp == stamp'
  {
    DigitsInFileName(pid, tid, stamp, kind, Dec(stamp'));
    IncludesOfSameLength(Dec(pid), Dec(stamp'));
    IncludesOfSameLength(Dec(tid), Dec(stamp'));
    IncludesOfSameLength(Dec(stamp), Dec(stamp'));
    if Dec(stamp) == Dec(stamp') {
      DecInjective(stamp, stamp');
    }
  }

  lemma WellFormedStamp(f: string, width: nat)
    requires WellFormed(f, width)
    ensures |Dec(TimeStamp(f))| == width
    ensures exists pid, tid, kind ::
              f == FileName(pid, tid, TimeStamp(f), kind) && |Dec(pid)| < width && |Dec(tid)| < width
  {
    var p, t, s, k :| f == FileName(p, t, s, k) && |Dec(s)| == width && |Dec(p)| < width && |Dec(t)| < width;
    TimeStampRoundTrip(p, t, s, k);
  }

  /** Between such names, `includes` of one's time stamp is equality of time stamps. */
  lemma IncludesIsSameStamp(f: string, g: string, width: nat)
    requires WellFormed(f, width) && WellFormed(g, width)
    ensures Includes(g, Dec(TimeStamp(f))) <==> TimeStamp(f) == TimeStamp(g)
  {
    WellFormedStamp(f, width);
    WellFormedStamp(g, width);
    var p, t, k :| g == FileName(p, t, TimeStamp(g), k) && |Dec(p)| < width && |Dec(t)| < width;
    StampInFileName(p, t, TimeStamp(g), k, TimeStamp(f));
  }

  // ----- whose file is it -----

  lemma DashEndsNumber(x: string, y: string, rest: string)
    requires AllDigits(x) && AllDigits(y)
    requires y + "-" <= x + "-" + rest
    ensures x == y
  {
    var s := x + "-" + rest;
    assert s[..|x|] == x && s[..|y|] == (y + "-")[..|y|] == y;
    assert s[|y|] == (y + "-")[|y|];
    RunEndIs(s, 0, |x|);
    RunEndIs(s, 0, |y|);
  }

  lemma TwoNumbers(h: string, x: string, y: string, rest: string, x': string, y': string)
    requires AllDigits(x) && AllDigits(y) && AllDigits(x') && AllDigits(y')
    requires h + x' + "-" + y' + "-" <= h + x + "-" + y + "-" + rest
    ensures x == x' && y == y'
  {
    var long, short := h + x + "-" + y + "-" + rest, h + x' + "-" + y' + "-";
    var n := |h| + |x'| + 1;
    assert x' + "-" == short[|h|..n] == long[|h|..n];
    assert long[|h|..] == x + "-" + (y + "-" + rest);
    DashEndsNumber(x, x', y + "-" + rest);
    assert y' + "-" == short[n..] <= long[n..] == y + "-" + rest;
    DashEndsNumber(y, y', rest);
  }

  /** `startsWith(prefix)` tells exactly the files of this process and thread. */
  lemma PrefixTellsOwner(pid: nat, tid: nat, stamp: nat, kind: Kind, pid': nat, tid': nat)
    ensures Prefix(pid', tid') <= FileName(pid, tid, stamp, kind) <==> pid == pid' && tid == tid'
  {
    var h, f, rest := "jsleakwatcher-", FileName(pid, tid, stamp, kind), Dec(stamp) + Suffix(kind);
    assert f == Prefix(pid, tid) + rest;
    assert Prefix(pid, tid) + rest == h + Dec(pid) + "-" + Dec(tid) + "-" + rest;
    if Prefix(pid', tid') <= f {
      TwoNumbers(h, Dec(pid), Dec(tid), rest, Dec(pid'), Dec(tid'));
      DecInjective(pid, pid');
      DecInjective(tid, tid');
    }
  }

  lemma LastTwo(s: string, t: string)
    requires |t| >= 2 && EndsWith(s, t)
    ensures s[|s| - 1] == t[|t| - 1] && s[|s| - 2] == t[|t| - 2]
  {
    assert t == s[|s| - |t|..];
  }

  /** A name ends with its own suffix and with no other. */
  lemma SuffixTellsKind(base: string, kind: Kind, other: Kind)
    ensures EndsWith(base + Suffix(kind), Suffix(other)) <==> kind == other
  {
    var f := base + Suffix(kind);
    assert f[|base|..] == Suffix(kind);
    if EndsWith(f, Suffix(other)) {
      LastTwo(f, Suffix(kind));
      LastTwo(f, Suffix(other));
    }
  }
}
