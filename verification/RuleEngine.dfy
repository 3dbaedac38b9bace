/** The rule words of HiChecker: one shared by the process, one for each thread, changed and read by
    any number of threads. */
module RuleEngine {
  import opened Common

  type Word = bv64
  type Thread = nat

  const RULE_CAUTION_PRINT_LOG: Word := 0x8000_0000_0000_0000
  const RULE_CAUTION_TRIGGER_CRASH: Word := 0x4000_0000_0000_0000
  const RULE_THREAD_CHECK_SLOW_PROCESS: Word := 0x1
  const RULE_THREAD_CHECK_NETWORK_USAGE: Word := 0x2
  const RULE_CHECK_SLOW_EVENT: Word := 0x1_0000_0000
  const RULE_CHECK_ABILITY_CONNECTION_LEAK: Word := 0x2_0000_0000
  const RULE_CHECK_ARKUI_PERFORMANCE: Word := 0x4_0000_0000

  const ALL_THREAD_RULES: Word := RULE_THREAD_CHECK_SLOW_PROCESS | RULE_THREAD_CHECK_NETWORK_USAGE
  const ALL_PROCESS_RULES: Word :=
    RULE_CHECK_SLOW_EVENT | RULE_CHECK_ABILITY_CONNECTION_LEAK | RULE_CHECK_ARKUI_PERFORMANCE
  const ALL_CAUTION_RULES: Word := RULE_CAUTION_PRINT_LOG | RULE_CAUTION_TRIGGER_CRASH
  const ALL_RULES: Word := ALL_CAUTION_RULES | ALL_THREAD_RULES | ALL_PROCESS_RULES

  /** The seven rules, by name. */
  datatype Rule = PrintLog | TriggerCrash | SlowProcess | NetworkUsage | SlowEvent | ConnectionLeak | ArkuiPerformance
  {
    function Bit(): Word {
      match this
      case PrintLog => RULE_CAUTION_PRINT_LOG
      case TriggerCrash => RULE_CAUTION_TRIGGER_CRASH
      case SlowProcess => RULE_THREAD_CHECK_SLOW_PROCESS
      case NetworkUsage => RULE_THREAD_CHECK_NETWORK_USAGE
      case SlowEvent => RULE_CHECK_SLOW_EVENT
      case ConnectionLeak => RULE_CHECK_ABILITY_CONNECTION_LEAK
      case ArkuiPerformance => RULE_CHECK_ARKUI_PERFORMANCE
    }

    predicate IsCaution() { PrintLog? || TriggerCrash? }
    predicate IsThreadRule() { SlowProcess? || NetworkUsage? }
    predicate IsProcessRule() { SlowEvent? || ConnectionLeak? || ArkuiPerformance? }
  }

  predicate HasBit(w: Word, b: Word) {
    w & b != 0
  }

  predicate Has(w: Word, r: Rule) {
    HasBit(w, r.Bit())
  }

  /** The updates of AddRule and RemoveRule, and the tests of GetRule and Contains. */
  function Union(v: Word, w: Word): Word {
    v | w
  }

  function Shared(v: Word, w: Word): Word {
    v & w
  }

  function WithRules(w: Word, mask: Word, rule: Word): Word {
    Union(w, Shared(mask, rule))
  }

  function WithoutRules(w: Word, rule: Word): Word {
    w ^ Shared(w, rule)
  }

  predicate Within(rule: Word, w: Word) {
    rule == rule & w
  }

  /** CheckRule: some rule is named, and nothing that is no rule. */
  predicate CheckRule(rule: Word) {
    rule != 0 && ALL_RULES == ALL_RULES | rule
  }

  // ----- histories -----

  /** What threads do, in the order it takes effect. A call that adds or removes holds the lock. A
      notification does not: it reads the process word up to three times, for its guard when the first
      `guard` events were there, for the test of the trigger when the first `test` were, and last of all
      the rules it acts on, and stands where it ends. */
  datatype Call =
    | Add(rule: Word)
    | Remove(rule: Word)
    | Notify(notice: Notice, guard: nat, test: nat)

  datatype Notice =
    | OfSlowProcess
    | OfNetworkUsage
    | OfSlowEvent
    | OfConnectionLeak(trigger: Word)
    | OfCaution(rule: Word, trigger: Word)
  {
    /** The trigger of the caution that is handled. */
    function Trigger(): Word {
      match this
      case OfSlowProcess => RULE_THREAD_CHECK_SLOW_PROCESS
      case OfNetworkUsage => RULE_THREAD_CHECK_NETWORK_USAGE
      case OfSlowEvent => RULE_CHECK_SLOW_EVENT
      case OfConnectionLeak(trigger) => trigger
      case OfCaution(_, trigger) => trigger
    }
  }

  datatype Event = Event(thread: Thread, call: Call)

  /** A valid call by this thread (by anyone, for None) that adds or removes the rule. */
  predicate Names(e: Event, r: Rule, who: Option<Thread>) {
    && (who.Some? ==> e.thread == who.value)
    && (e.call.Add? || e.call.Remove?) && CheckRule(e.call.rule) && Has(e.call.rule, r)
  }

  ghost predicate LastNaming(h: seq<Event>, r: Rule, who: Option<Thread>, i: int) {
    0 <= i < |h| && Names(h[i], r, who) && forall j | i < j < |h| :: !Names(h[j], r, who)
  }

  /** The last call that names the rule is there, and is an add. */
  ghost predicate LastIsAdd(h: seq<Event>, r: Rule, who: Option<Thread>) {
    exists i :: LastNaming(h, r, who, i) && h[i].call.Add?
  }

  /** The rule is set for a thread: a thread rule or caution by the thread's own last call on it... */
  ghost predicate InThread(h: seq<Event>, t: Thread, r: Rule) {
    !r.IsProcessRule() && LastIsAdd(h, r, Some(t))
  }

  /** ...and for the process: a process rule or caution by anyone's last call on it. */
  ghost predicate InProcess(h: seq<Event>, r: Rule) {
    !r.IsThreadRule() && LastIsAdd(h, r, None)
  }

  /** The rule is set for a thread: by the thread's own last call on a thread rule, by anyone's last call
      on a process rule, and by either on a caution. */
  ghost predicate Visible(h: seq<Event>, t: Thread, r: Rule) {
    match r
    case SlowProcess | NetworkUsage => LastIsAdd(h, r, Some(t))
    case PrintLog | TriggerCrash => LastIsAdd(h, r, Some(t)) || LastIsAdd(h, r, None)
    case SlowEvent | ConnectionLeak | ArkuiPerformance => LastIsAdd(h, r, None)
  }

  lemma VisibleInWords(h: seq<Event>, t: Thread, r: Rule)
    ensures Visible(h, t, r) <==> InThread(h, t, r) || InProcess(h, r)
  {}

  datatype Outcome = Nothing | Log | Crash

  /** Some rule of the mask is set in the thread word, or in the process word. */
  ghost predicate AnyInThread(h: seq<Event>, t: Thread, mask: Word) {
    exists r :: Has(mask, r) && InThread(h, t, r)
  }

  ghost predicate AnyInProcess(h: seq<Event>, mask: Word) {
    exists r :: Has(mask, r) && InProcess(h, r)
  }

  /** What the guard of a notification asks for. */
  ghost predicate Asked(h: seq<Event>, t: Thread, n: Notice) {
    match n
    case OfSlowProcess => InThread(h, t, SlowProcess)
    case OfNetworkUsage => InThread(h, t, NetworkUsage)
    case OfSlowEvent => InProcess(h, SlowEvent)
    case OfConnectionLeak(_) => InProcess(h, ConnectionLeak)
    case OfCaution(rule, _) => AnyInThread(h, t, rule) || AnyInProcess(h, rule)
  }

  ghost predicate Triggered(h: seq<Event>, t: Thread, trigger: Word) {
    AnyInThread(h, t, trigger) || AnyInProcess(h, trigger)
  }

  /** The crash rule where a caution with this trigger looks for it: the thread's rules come first. */
  ghost predicate CrashSet(test: seq<Event>, copy: seq<Event>, t: Thread, trigger: Word) {
    if AnyInThread(test, t, trigger) then InThread(copy, t, TriggerCrash) else InProcess(copy, TriggerCrash)
  }

  /** What handling a caution comes to, whose test of the trigger and whose copy of the rules are made at
      these times: a crash rule crashes, and everything else logs. */
  ghost function Handled(test: seq<Event>, copy: seq<Event>, t: Thread, trigger: Word): Outcome {
    if !Triggered(test, t, trigger) then Nothing else if CrashSet(test, copy, t, trigger) then Crash else Log
  }

  ghost function OutcomeAt(guard: seq<Event>, test: seq<Event>, copy: seq<Event>, t: Thread, n: Notice): Outcome {
    if Asked(guard, t, n) then Handled(test, copy, t, n.Trigger()) else Nothing
  }

  /** All reads at one moment. */
  ghost function AtOnce(h: seq<Event>, t: Thread, n: Notice): Outcome {
    OutcomeAt(h, h, h, t, n)
  }

  function UpTo(h: seq<Event>, k: nat): seq<Event> {
    if k <= |h| then h[..k] else h
  }

  ghost function OutcomeOf(h: seq<Event>, e: Event): Outcome
    requires e.call.Notify?
  {
    OutcomeAt(UpTo(h, e.call.guard), UpTo(h, e.call.test), h, e.thread, e.call.notice)
  }

  /** A thread does one thing at a time: from the first read of a notification to its end only other
      threads do anything. */
  ghost predicate TakesTime(h: seq<Event>, e: Event) {
    e.call.Notify? ==>
      e.call.guard <= e.call.test <= |h| && forall j | e.call.guard <= j < |h| :: h[j].thread != e.thread
  }

  ghost predicate Sequential(h: seq<Event>) {
    forall i | 0 <= i < |h| :: TakesTime(h[..i], h[i])
  }

  lemma SequentialMore(h: seq<Event>, e: Event)
    ensures Sequential(h + [e]) <==> Sequential(h) && TakesTime(h, e)
  {
    hide TakesTime;
    var g := h + [e];
    assert g[..|h|] == h;
    assert forall i | 0 <= i < |h| :: g[..i] == h[..i] && g[i] == h[i];
    if Sequential(g) {
      assert TakesTime(g[..|h|], g[|h|]);
    }
  }

  // ----- bits -----

  lemma BitsOfMasks(r: Rule)
    ensures Has(ALL_THREAD_RULES, r) <==> r.IsThreadRule()
    ensures Has(ALL_PROCESS_RULES, r) <==> r.IsProcessRule()
    ensures Has(ALL_CAUTION_RULES, r) <==> r.IsCaution()
  {}

  /** A word of rules. */
  predicate OnlyRules(w: Word) {
    w & ALL_RULES == w
  }

  /** Where the rules stand in a word. */
  lemma BitPositions()
    ensures PrintLog.Bit() == 1 << 63 && TriggerCrash.Bit() == 1 << 62
    ensures SlowProcess.Bit() == 1 << 0 && NetworkUsage.Bit() == 1 << 1
    ensures SlowEvent.Bit() == 1 << 32 && ConnectionLeak.Bit() == 1 << 33 && ArkuiPerformance.Bit() == 1 << 34
  {}

  predicate SingleBit(b: Word) {
    b != 0 && b & (b - 1) == 0
  }

  predicate IsRule(b: Word) {
    exists r: Rule :: b == r.Bit()
  }

  /** The words AddRule, RemoveRule and Contains accept: those with a bit set, and only bits of the seven rules. */
  lemma ValidWords(w: Word)
    ensures CheckRule(w) <==> w != 0 && forall b | SingleBit(b) && HasBit(w, b) :: IsRule(b)
  {
    if CheckRule(w) {
      forall b | SingleBit(b) && HasBit(w, b) ensures IsRule(b) {
        BitOfValid(w, b);
      }
    } else if w != 0 {
      var b := OddBit(w);
      if IsRule(b) {
        var r: Rule :| b == r.Bit();
        RuleIsValid(r);
        ApartIsNoRule(r.Bit());
      }
    }
  }

  lemma BitOfValid(w: Word, b: Word)
    requires CheckRule(w) && SingleBit(b) && HasBit(w, b)
    ensures IsRule(b)
  {
    OneOfSeven(w, b);
    assert b == PrintLog.Bit() || b == TriggerCrash.Bit() || b == SlowProcess.Bit() || b == NetworkUsage.Bit()
        || b == SlowEvent.Bit() || b == ConnectionLeak.Bit() || b == ArkuiPerformance.Bit();
  }

  lemma OneOfSeven(w: Word, b: Word)
    requires CheckRule(w) && SingleBit(b) && HasBit(w, b)
    ensures b == RULE_CAUTION_PRINT_LOG || b == RULE_CAUTION_TRIGGER_CRASH || b == RULE_THREAD_CHECK_SLOW_PROCESS
         || b == RULE_THREAD_CHECK_NETWORK_USAGE || b == RULE_CHECK_SLOW_EVENT
         || b == RULE_CHECK_ABILITY_CONNECTION_LEAK || b == RULE_CHECK_ARKUI_PERFORMANCE
  {}

  /** A word that is refused, but not for being zero, has a bit apart from all rules. */
  lemma OddBit(w: Word) returns (b: Word)
    requires !CheckRule(w) && w != 0
    ensures SingleBit(b) && HasBit(w, b) && b & ALL_RULES == 0
  {
    var rest := w & !ALL_RULES;
    b := rest & (0 - rest);
  }

  lemma ApartIsNoRule(b: Word)
    requires CheckRule(b)
    ensures b & ALL_RULES != 0
  {}

  /** Each of the seven rules may be named, and any valid words together. */
  lemma RuleIsValid(r: Rule)
    ensures CheckRule(r.Bit())
  {}

  lemma UnionIsValid(v: Word, w: Word)
    requires CheckRule(v) && CheckRule(w)
    ensures CheckRule(Union(v, w))
  {}

  lemma OneBit(w: Word, b: Word)
    requires b != 0 && b & (b - 1) == 0
    ensures w & b == 0 || w & b == b
  {}

  lemma RuleIsOneBit(r: Rule)
    ensures r.Bit() != 0 && r.Bit() & (r.Bit() - 1) == 0
  {}

  lemma AndBit(v: Word, w: Word, b: Word)
    requires v & b == 0 || v & b == b
    requires w & b == 0 || w & b == b
    ensures (v & w) & b != 0 <==> v & b != 0 && w & b != 0
  {
    assert (v & w) & b == (v & b) & (w & b);
  }

  lemma OrBit(v: Word, w: Word, b: Word)
    requires v & b == 0 || v & b == b
    requires w & b == 0 || w & b == b
    ensures (v | w) & b != 0 <==> v & b != 0 || w & b != 0
  {
    assert (v | w) & b == (v & b) | (w & b);
  }

  lemma OrZero(v: Word, w: Word)
    ensures v | w == 0 <==> v == 0 && w == 0
  {}

  lemma ClearBit(w: Word, rule: Word, b: Word)
    requires w & b == 0 || w & b == b
    requires rule & b == 0 || rule & b == b
    ensures (w ^ (w & rule)) & b != 0 <==> w & b != 0 && rule & b == 0
  {
    assert (w ^ (w & rule)) & b == (w & b) ^ ((w & b) & (rule & b));
  }

  lemma UnionBit(v: Word, w: Word, b: Word)
    requires b != 0 && b & (b - 1) == 0
    ensures HasBit(Union(v, w), b) <==> HasBit(v, b) || HasBit(w, b)
  {
    OneBit(v, b);
    OneBit(w, b);
    OrBit(v, w, b);
  }

  lemma SharedBit(v: Word, w: Word, b: Word)
    requires b != 0 && b & (b - 1) == 0
    ensures HasBit(Shared(v, w), b) <==> HasBit(v, b) && HasBit(w, b)
  {
    OneBit(v, b);
    OneBit(w, b);
    AndBit(v, w, b);
  }

  lemma RemovedBit(v: Word, w: Word, b: Word)
    requires b != 0 && b & (b - 1) == 0
    ensures HasBit(WithoutRules(v, w), b) <==> HasBit(v, b) && !HasBit(w, b)
  {
    OneBit(v, b);
    OneBit(w, b);
    ClearBit(v, w, b);
  }

  /** What the operations do to the rules in a word. */
  lemma WordOperations(v: Word, w: Word, r: Rule)
    ensures Has(Union(v, w), r) <==> Has(v, r) || Has(w, r)
    ensures Has(Shared(v, w), r) <==> Has(v, r) && Has(w, r)
    ensures Has(WithoutRules(v, w), r) <==> Has(v, r) && !Has(w, r)
  {
    hide Rule.Bit, HasBit, Union, Shared, WithoutRules;
    RuleIsOneBit(r);
    UnionBit(v, w, r.Bit());
    SharedBit(v, w, r.Bit());
    RemovedBit(v, w, r.Bit());
  }

  /** The updates make no bits that are no rules. */
  lemma StaysRules(v: Word, w: Word, mask: Word, rule: Word)
    requires OnlyRules(v)
    ensures OnlyRules(w) ==> OnlyRules(Union(v, w))
    ensures OnlyRules(WithoutRules(v, rule))
    ensures CheckRule(rule) ==> OnlyRules(Shared(mask, rule))
  {}

  /** A word of rules meets a mask exactly when they have a rule in common. */
  lemma SharedRule(w: Word, mask: Word)
    requires OnlyRules(w)
    ensures HasBit(w, mask) <==> exists r :: Has(mask, r) && Has(w, r)
  {
    var common := Shared(w, mask);
    CommonIsRule(w, mask);
    SomeRule(common);
    hide Has, OnlyRules, HasBit, Shared;
    forall r ensures Has(common, r) <==> Has(w, r) && Has(mask, r) {
      WordOperations(w, mask, r);
    }
  }

  lemma CommonIsRule(w: Word, mask: Word)
    requires OnlyRules(w)
    ensures OnlyRules(Shared(w, mask)) && (HasBit(w, mask) <==> Shared(w, mask) != 0)
  {}

  /** A word of rules that is not empty has a rule. */
  lemma SomeRule(w: Word)
    requires OnlyRules(w)
    ensures w != 0 <==> exists r :: Has(w, r)
  {
    SevenBits(w);
    if w != 0 {
      assert Has(w, PrintLog) || Has(w, TriggerCrash) || Has(w, SlowProcess) || Has(w, NetworkUsage)
          || Has(w, SlowEvent) || Has(w, ConnectionLeak) || Has(w, ArkuiPerformance);
    }
  }

  lemma SevenBits(w: Word)
    requires OnlyRules(w)
    ensures w != 0 <==> Has(w, PrintLog) || Has(w, TriggerCrash) || Has(w, SlowProcess) || Has(w, NetworkUsage)
                        || Has(w, SlowEvent) || Has(w, ConnectionLeak) || Has(w, ArkuiPerformance)
    ensures w == 0 ==> forall r :: !Has(w, r)
  {}

  /** A rule word contains another exactly when it has each of its rules. */
  lemma ContainsBits(w: Word, rule: Word)
    requires CheckRule(rule)
    ensures Within(rule, w) <==> forall r :: Has(rule, r) ==> Has(w, r)
  {
    var missing := WithoutRules(rule, w);
    MissingIsRule(rule, w);
    SomeRule(missing);
    hide Has, OnlyRules, CheckRule, Within, WithoutRules;
    forall r ensures Has(missing, r) <==> Has(rule, r) && !Has(w, r) {
      WordOperations(rule, w, r);
    }
  }

  lemma MissingIsRule(rule: Word, w: Word)
    requires CheckRule(rule)
    ensures OnlyRules(WithoutRules(rule, w)) && (Within(rule, w) <==> WithoutRules(rule, w) == 0)
  {}

  // ----- one more call -----

  /** A last naming call stays one until the rule is named again. */
  lemma StillLast(h: seq<Event>, e: Event, r: Rule, who: Option<Thread>, i: int)
    requires !Names(e, r, who)
    ensures LastNaming(h + [e], r, who, i) <==> LastNaming(h, r, who, i)
  {
    hide Names;
    var g := h + [e];
    assert forall j | 0 <= j < |h| :: g[j] == h[j];
    assert g[|h|] == e;
  }

  lemma NowLast(h: seq<Event>, e: Event, r: Rule, who: Option<Thread>, i: int)
    requires Names(e, r, who)
    ensures LastNaming(h + [e], r, who, i) <==> i == |h|
  {
    hide Names;
    assert (h + [e])[|h|] == e;
  }

  lemma OneMoreCall(h: seq<Event>, e: Event, r: Rule, who: Option<Thread>)
    ensures LastIsAdd(h + [e], r, who) <==> if Names(e, r, who) then e.call.Add? else LastIsAdd(h, r, who)
  {
    hide Names, LastNaming;
    assert (h + [e])[|h|] == e;
    forall i
      ensures Names(e, r, who) ==> (LastNaming(h + [e], r, who, i) <==> i == |h|)
      ensures !Names(e, r, who) ==> (LastNaming(h + [e], r, who, i) <==> LastNaming(h, r, who, i))
      ensures LastNaming(h, r, who, i) ==> 0 <= i < |h| && (h + [e])[i] == h[i]
    {
      LastIsInside(h, r, who, i);
      if Names(e, r, who) {
        NowLast(h, e, r, who, i);
      } else {
        StillLast(h, e, r, who, i);
      }
    }
  }

  lemma LastIsInside(h: seq<Event>, r: Rule, who: Option<Thread>, i: int)
    ensures LastNaming(h, r, who, i) ==> 0 <= i < |h|
  {}

  /** The masks of AddRule for the word of a thread and that of the process. */
  const THREAD_MASK: Word := ALL_THREAD_RULES | ALL_CAUTION_RULES
  const PROCESS_MASK: Word := ALL_PROCESS_RULES | ALL_CAUTION_RULES

  lemma MaskBits(r: Rule)
    ensures Has(THREAD_MASK, r) <==> !r.IsProcessRule()
    ensures Has(PROCESS_MASK, r) <==> !r.IsThreadRule()
  {
    BitsOfMasks(r);
    WordOperations(ALL_THREAD_RULES, ALL_CAUTION_RULES, r);
    WordOperations(ALL_PROCESS_RULES, ALL_CAUTION_RULES, r);
    hide Has;
  }

  lemma MaskedAddBits(w: Word, mask: Word, rule: Word, r: Rule)
    ensures Has(WithRules(w, mask, rule), r) <==> Has(w, r) || (Has(mask, r) && Has(rule, r))
  {
    hide Has, Union, Shared;
    WordOperations(w, Shared(mask, rule), r);
    WordOperations(mask, rule, r);
  }

  lemma MaskedAdd(w: Word, mask: Word, rule: Word)
    requires OnlyRules(w) && CheckRule(rule)
    ensures OnlyRules(WithRules(w, mask, rule))
    ensures forall r :: Has(WithRules(w, mask, rule), r) <==> Has(w, r) || (Has(mask, r) && Has(rule, r))
  {
    StaysRules(w, Shared(mask, rule), mask, rule);
    hide Has, OnlyRules, CheckRule, Union, Shared;
    forall r ensures Has(WithRules(w, mask, rule), r) <==> Has(w, r) || (Has(mask, r) && Has(rule, r)) {
      MaskedAddBits(w, mask, rule, r);
    }
  }

  lemma Cleared(w: Word, rule: Word)
    requires OnlyRules(w)
    ensures OnlyRules(WithoutRules(w, rule))
    ensures forall r :: Has(WithoutRules(w, rule), r) <==> Has(w, r) && !Has(rule, r)
  {
    StaysRules(w, w, w, rule);
    hide Has, OnlyRules, WithoutRules;
    forall r ensures Has(WithoutRules(w, rule), r) <==> Has(w, r) && !Has(rule, r) {
      WordOperations(w, rule, r);
    }
  }

  lemma EitherWord(v: Word, w: Word)
    requires OnlyRules(v) && OnlyRules(w)
    ensures OnlyRules(Union(v, w))
    ensures forall r :: Has(Union(v, w), r) <==> Has(v, r) || Has(w, r)
  {
    StaysRules(v, w, w, w);
    hide Has, OnlyRules, Union;
    forall r ensures Has(Union(v, w), r) <==> Has(v, r) || Has(w, r) {
      WordOperations(v, w, r);
    }
  }

  lemma SlowEventNamed(rule: Word)
    ensures HasBit(RULE_CHECK_SLOW_EVENT, rule) <==> Has(rule, SlowEvent)
  {
    assert RULE_CHECK_SLOW_EVENT & rule == rule & RULE_CHECK_SLOW_EVENT;
  }

  lemma WithinOneBit(w: Word, b: Word)
    requires b != 0 && b & (b - 1) == 0
    ensures Within(b, w) <==> HasBit(w, b)
  {
    OneBit(w, b);
    AndSwaps(w, b);
  }

  lemma AndSwaps(v: Word, w: Word)
    ensures v & w == w & v
  {}

  /** CautionEnable asks for a rule of a caution's word. */
  lemma EnableBits(w: Word, r: Rule)
    ensures Within(r.Bit(), w) <==> Has(w, r)
  {
    hide Rule.Bit, Within, HasBit;
    RuleIsOneBit(r);
    WithinOneBit(w, r.Bit());
  }

  lemma NoCaution(w: Word)
    ensures !HasBit(w, ALL_CAUTION_RULES) <==> !Has(w, PrintLog) && !Has(w, TriggerCrash)
  {
    hide Rule.Bit;
    EitherBit(w, RULE_CAUTION_PRINT_LOG, RULE_CAUTION_TRIGGER_CRASH);
    CautionBits();
  }

  lemma AndDistributes(w: Word, b: Word, c: Word)
    ensures w & (b | c) == (w & b) | (w & c)
  {}

  lemma EitherBit(w: Word, b: Word, c: Word)
    ensures w & (b | c) == 0 <==> w & b == 0 && w & c == 0
  {
    AndDistributes(w, b, c);
    OrZero(w & b, w & c);
  }

  lemma CautionBits()
    ensures PrintLog.Bit() == RULE_CAUTION_PRINT_LOG && TriggerCrash.Bit() == RULE_CAUTION_TRIGGER_CRASH
    ensures RULE_CAUTION_PRINT_LOG | RULE_CAUTION_TRIGGER_CRASH == ALL_CAUTION_RULES
  {}

  lemma RuleOfBit(r: Rule, q: Rule)
    ensures Has(q.Bit(), r) <==> r == q
  {}

  // ----- words and histories -----

  /** The rule word of a thread; 0 until it is first changed. */
  function WordOf(words: map<Thread, Word>, t: Thread): Word {
    if t in words then words[t] else 0
  }

  /** The words and the cached flag are what the history says. */
  ghost predicate Matches(h: seq<Event>, words: map<Thread, Word>, process: Word, checkMode: bool) {
    && OnlyRules(process) && (forall t :: OnlyRules(WordOf(words, t)))
    && (forall r :: Has(process, r) <==> InProcess(h, r))
    && (forall t, r :: Has(WordOf(words, t), r) <==> InThread(h, t, r))
    && (checkMode <==> InProcess(h, SlowEvent))
  }

  /** How a call moves the history's answers. */
  lemma CallMoves(h: seq<Event>, e: Event)
    ensures var changes := (e.call.Add? || e.call.Remove?) && CheckRule(e.call.rule);
            && (forall r :: InProcess(h + [e], r) <==>
                  !r.IsThreadRule() && if changes && Has(e.call.rule, r) then e.call.Add? else InProcess(h, r))
            && (forall t, r :: InThread(h + [e], t, r) <==>
                  !r.IsProcessRule()
                  && if changes && t == e.thread && Has(e.call.rule, r) then e.call.Add? else InThread(h, t, r))
  {
    hide Has, CheckRule, LastIsAdd;
    forall r, who: Option<Thread>
      ensures LastIsAdd(h + [e], r, who) <==> if Names(e, r, who) then e.call.Add? else LastIsAdd(h, r, who)
    {
      OneMoreCall(h, e, r, who);
    }
  }

  lemma AddMatches(h: seq<Event>, words: map<Thread, Word>, process: Word, checkMode: bool, t: Thread, rule: Word)
    requires Matches(h, words, process, checkMode) && CheckRule(rule)
    ensures Matches(h + [Event(t, Add(rule))], words[t := WithRules(WordOf(words, t), THREAD_MASK, rule)],
                    WithRules(process, PROCESS_MASK, rule), checkMode || Has(rule, SlowEvent))
  {
    hide Has, OnlyRules, CheckRule, InProcess, InThread, WithRules, WithoutRules, THREAD_MASK, PROCESS_MASK;
    CallMoves(h, Event(t, Add(rule)));
    MaskedAdd(WordOf(words, t), THREAD_MASK, rule);
    MaskedAdd(process, PROCESS_MASK, rule);
    forall r
      ensures Has(THREAD_MASK, r) <==> !r.IsProcessRule()
      ensures Has(PROCESS_MASK, r) <==> !r.IsThreadRule()
    {
      MaskBits(r);
    }
    OnlyOwnRules(h);
    var words' := words[t := WithRules(WordOf(words, t), THREAD_MASK, rule)];
    forall u
      ensures OnlyRules(WordOf(words', u))
      ensures forall r :: Has(WordOf(words', u), r) <==> InThread(h + [Event(t, Add(rule))], u, r)
    {
      assert u != t ==> WordOf(words', u) == WordOf(words, u);
    }
  }

  lemma RemoveMatches(h: seq<Event>, words: map<Thread, Word>, process: Word, checkMode: bool, t: Thread, rule: Word)
    requires Matches(h, words, process, checkMode) && CheckRule(rule)
    ensures Matches(h + [Event(t, Remove(rule))], words[t := WithoutRules(WordOf(words, t), rule)],
                    WithoutRules(process, rule), checkMode && !Has(rule, SlowEvent))
  {
    hide Has, OnlyRules, CheckRule, InProcess, InThread, WithRules, WithoutRules, THREAD_MASK, PROCESS_MASK;
    CallMoves(h, Event(t, Remove(rule)));
    Cleared(WordOf(words, t), rule);
    Cleared(process, rule);
    OnlyOwnRules(h);
    var words' := words[t := WithoutRules(WordOf(words, t), rule)];
    forall u
      ensures OnlyRules(WordOf(words', u))
      ensures forall r :: Has(WordOf(words', u), r) <==> InThread(h + [Event(t, Remove(rule))], u, r)
    {
      assert u != t ==> WordOf(words', u) == WordOf(words, u);
    }
  }

  /** A rule added by one thread is seen by it, and by every other thread unless it is a thread rule. */
  lemma AddedIsSeen(h: seq<Event>, u: Thread, r: Rule, t: Thread)
    ensures Visible(h + [Event(u, Add(r.Bit()))], t, r)
            <==> t == u || (!r.SlowProcess? && !r.NetworkUsage?) || Visible(h, t, r)
  {
    hide LastIsAdd, CheckRule, Has;
    RuleIsValid(r);
    RuleOfBit(r, r);
    OneMoreCall(h, Event(u, Add(r.Bit())), r, Some(t));
    OneMoreCall(h, Event(u, Add(r.Bit())), r, None);
  }

  /** A rule removed by one thread is seen by none, unless another has it as its own. */
  lemma RemovedIsGone(h: seq<Event>, u: Thread, r: Rule, t: Thread)
    ensures Visible(h + [Event(u, Remove(r.Bit()))], t, r)
            <==> t != u && (r.SlowProcess? || r.NetworkUsage? || r.PrintLog? || r.TriggerCrash?)
                 && LastIsAdd(h, r, Some(t))
  {
    hide LastIsAdd, CheckRule, Has;
    RuleIsValid(r);
    RuleOfBit(r, r);
    OneMoreCall(h, Event(u, Remove(r.Bit())), r, Some(t));
    OneMoreCall(h, Event(u, Remove(r.Bit())), r, None);
  }

  lemma OnlyOwnRules(h: seq<Event>)
    ensures forall r :: InProcess(h, r) ==> !r.IsThreadRule()
    ensures forall t, r :: InThread(h, t, r) ==> !r.IsProcessRule()
  {}

  /** Notifications and refused calls change nothing. */
  lemma OthersMatch(h: seq<Event>, words: map<Thread, Word>, process: Word, checkMode: bool, e: Event)
    requires Matches(h, words, process, checkMode)
    requires (e.call.Add? || e.call.Remove?) ==> !CheckRule(e.call.rule)
    ensures Matches(h + [e], words, process, checkMode)
  {
    hide Has, OnlyRules, CheckRule, InProcess, InThread, WithRules, WithoutRules, THREAD_MASK, PROCESS_MASK;
    CallMoves(h, e);
    OnlyOwnRules(h);
  }

  /** The words answer for the masks of the history. */
  lemma MaskedWords(h: seq<Event>, words: map<Thread, Word>, process: Word, checkMode: bool, t: Thread, mask: Word)
    requires Matches(h, words, process, checkMode)
    ensures HasBit(WordOf(words, t), mask) <==> AnyInThread(h, t, mask)
    ensures HasBit(process, mask) <==> AnyInProcess(h, mask)
  {
    hide Has, HasBit, OnlyRules, InProcess, InThread;
    SharedRule(WordOf(words, t), mask);
    SharedRule(process, mask);
  }

  /** For the bit of one rule, the masks ask for that rule. */
  lemma MaskOfRule(h: seq<Event>, t: Thread, q: Rule)
    ensures AnyInThread(h, t, q.Bit()) <==> InThread(h, t, q)
    ensures AnyInProcess(h, q.Bit()) <==> InProcess(h, q)
  {
    hide Has, InProcess, InThread;
    forall r ensures Has(q.Bit(), r) <==> r == q {
      RuleOfBit(r, q);
    }
  }

  // ----- what is emitted -----

  datatype Report = Report(thread: Thread, outcome: Outcome)

  function ReportOf(t: Thread, o: Outcome): seq<Report> {
    if o == Nothing then [] else [Report(t, o)]
  }

  /** The logs and crashes of a history. */
  ghost function Emitted(h: seq<Event>): seq<Report> {
    if h == [] then []
    else
      var before, e := h[..|h| - 1], h[|h| - 1];
      Emitted(before) + if e.call.Notify? then ReportOf(e.thread, OutcomeOf(before, e)) else []
  }

  lemma EmittedMore(h: seq<Event>, e: Event)
    ensures Emitted(h + [e]) == Emitted(h)
              + if e.call.Notify? then ReportOf(e.thread, OutcomeOf(h, e)) else []
  {
    hide OutcomeOf;
    assert (h + [e])[..|h|] == h;
  }

  // ----- the code -----

  /** Calls by other threads that add or remove. */
  ghost predicate ChangesOfOthers(calls: seq<Event>, t: Thread) {
    forall i | 0 <= i < |calls| :: calls[i].thread != t && !calls[i].call.Notify?
  }

  /** A notification that starts after h, with `early` between its first two reads. */
  function Notified(h: seq<Event>, t: Thread, n: Notice, early: seq<Event>): Event {
    Event(t, Notify(n, |h|, |h| + |early|))
  }

  lemma OwnCalls(h: seq<Event>, t: Thread, r: Rule)
    requires !r.IsProcessRule()
    ensures InThread(h, t, r) <==> LastIsAdd(h, r, Some(t))
  {}

  lemma AnyonesCalls(h: seq<Event>, r: Rule)
    requires !r.IsThreadRule()
    ensures InProcess(h, r) <==> LastIsAdd(h, r, None)
  {}

  lemma VisibleOfMask(h: seq<Event>, t: Thread, mask: Word)
    ensures (exists r :: Has(mask, r) && Visible(h, t, r)) <==> AnyInThread(h, t, mask) || AnyInProcess(h, mask)
  {
    forall r {
      VisibleInWords(h, t, r);
    }
    hide Has, Visible, InThread, InProcess;
  }

  /** The guards of the notifications, as they are written. */
  lemma GuardInWords(h: seq<Event>, words: map<Thread, Word>, process: Word, checkMode: bool, t: Thread, n: Notice)
    requires Matches(h, words, process, checkMode)
    ensures Asked(h, t, n) <==>
            match n
            case OfSlowProcess => HasBit(WordOf(words, t), RULE_THREAD_CHECK_SLOW_PROCESS)
            case OfNetworkUsage => HasBit(WordOf(words, t), RULE_THREAD_CHECK_NETWORK_USAGE)
            case OfSlowEvent => HasBit(process, RULE_CHECK_SLOW_EVENT)
            case OfConnectionLeak(_) => HasBit(process, RULE_CHECK_ABILITY_CONNECTION_LEAK)
            case OfCaution(rule, _) => HasBit(WordOf(words, t), rule) || HasBit(process, rule)
    ensures n.OfConnectionLeak? ==> (Asked(h, t, n) <==> LastIsAdd(h, ConnectionLeak, None))
    ensures n.OfCaution? ==> (Asked(h, t, n) <==> exists r :: Has(n.rule, r) && Visible(h, t, r))
  {
    AnyonesCalls(h, ConnectionLeak);
    if n.OfCaution? {
      VisibleOfMask(h, t, n.rule);
      MaskedWords(h, words, process, checkMode, t, n.rule);
    }
    hide Matches, InThread, InProcess, AnyInThread, AnyInProcess, HasBit, LastIsAdd, Visible, Has;
    var q := match n
             case OfSlowProcess => SlowProcess
             case OfNetworkUsage => NetworkUsage
             case OfSlowEvent => SlowEvent
             case _ => ConnectionLeak;
    MaskedWords(h, words, process, checkMode, t, q.Bit());
    MaskOfRule(h, t, q);
  }

  lemma OutcomeIs(h: seq<Event>, early: seq<Event>, late: seq<Event>, t: Thread, n: Notice)
    ensures OutcomeAt(h, h + early, h + early + late, t, n) ==
            if Asked(h, t, n) then Handled(h + early, h + early + late, t, n.Trigger()) else Nothing
  {
    hide Asked, Handled;
  }

  lemma HasRules(h: seq<Event>, words: map<Thread, Word>, process: Word, checkMode: bool, t: Thread, r: Rule)
    requires Matches(h, words, process, checkMode)
    ensures Has(WordOf(words, t), r) <==> InThread(h, t, r)
    ensures Has(process, r) <==> InProcess(h, r)
  {}

  class CautionDetail {
    var rules: Word

    constructor (rules: Word)
      ensures this.rules == rules
    {
      this.rules := rules;
    }

    predicate CautionEnable(r: Rule)
      reads this
    {
      Within(r.Bit(), rules)
    }
  }

  class HiChecker {
    var checkMode: bool
    var processRules: Word
    var threadLocalRules: map<Thread, Word>
    var reports: seq<Report>
    var aborted: bool
    ghost var history: seq<Event>

    ghost predicate RulesMatch()
      reads this
    {
      Matches(history, threadLocalRules, processRules, checkMode)
    }

    /** The rule words, the cached flag and the reports are those of the history. */
    ghost predicate Refines()
      reads this
    {
      RulesMatch() && Sequential(history) && reports == Emitted(history)
    }

    constructor ()
      ensures Refines() && history == [] && !aborted
    {
      checkMode, processRules, threadLocalRules, reports, aborted := false, 0, map[], [], false;
      history := [];
    }

    method AddRule(t: Thread, rule: Word)
      requires Refines() && !aborted
      modifies this
      ensures Refines() && !aborted && history == old(history) + [Event(t, Add(rule))]
      ensures reports == old(reports)
    {
      hide Matches, CheckRule, Has, HasBit, WithRules, WithoutRules, THREAD_MASK, PROCESS_MASK, Sequential;
      EmittedMore(history, Event(t, Add(rule)));
      SequentialMore(history, Event(t, Add(rule)));
      if !CheckRule(rule) {
        OthersMatch(history, threadLocalRules, processRules, checkMode, Event(t, Add(rule)));
        history := history + [Event(t, Add(rule))];
        return;
      }
      AddMatches(history, threadLocalRules, processRules, checkMode, t, rule);
      SlowEventNamed(rule);
      if HasBit(RULE_CHECK_SLOW_EVENT, rule) {
        checkMode := true;
      }
      threadLocalRules := threadLocalRules[t := WithRules(WordOf(threadLocalRules, t), THREAD_MASK, rule)];
      processRules := WithRules(processRules, PROCESS_MASK, rule);
      history := history + [Event(t, Add(rule))];
    }

    method RemoveRule(t: Thread, rule: Word)
      requires Refines() && !aborted
      modifies this
      ensures Refines() && !aborted && history == old(history) + [Event(t, Remove(rule))]
      ensures reports == old(reports)
    {
      hide Matches, CheckRule, Has, HasBit, WithRules, WithoutRules, THREAD_MASK, PROCESS_MASK, Sequential;
      EmittedMore(history, Event(t, Remove(rule)));
      SequentialMore(history, Event(t, Remove(rule)));
      if !CheckRule(rule) {
        OthersMatch(history, threadLocalRules, processRules, checkMode, Event(t, Remove(rule)));
        history := history + [Event(t, Remove(rule))];
        return;
      }
      RemoveMatches(history, threadLocalRules, processRules, checkMode, t, rule);
      SlowEventNamed(rule);
      if HasBit(RULE_CHECK_SLOW_EVENT, rule) {
        checkMode := false;
      }
      threadLocalRules := threadLocalRules[t := WithoutRules(WordOf(threadLocalRules, t), rule)];
      processRules := WithoutRules(processRules, rule);
      history := history + [Event(t, Remove(rule))];
    }

    /** The rules a thread sees: those whose last valid call, by the thread or by anyone as the rule
        has it, was an add. */
    method GetRule(t: Thread) returns (w: Word)
      requires Refines()
      ensures OnlyRules(w) && forall r :: Has(w, r) <==> Visible(history, t, r)
    {
      forall r {
        VisibleInWords(history, t, r);
      }
      hide Has, OnlyRules, InThread, InProcess, Union, Visible;
      w := Union(WordOf(threadLocalRules, t), processRules);
      EitherWord(WordOf(threadLocalRules, t), processRules);
    }

    method Contains(t: Thread, rule: Word) returns (b: bool)
      requires Refines()
      ensures b <==> CheckRule(rule) && forall r :: Has(rule, r) ==> Visible(history, t, r)
    {
      forall r {
        VisibleInWords(history, t, r);
      }
      hide Has, OnlyRules, InThread, InProcess, CheckRule, Union, Within, Visible;
      if !CheckRule(rule) {
        return false;
      }
      b := Within(rule, Union(WordOf(threadLocalRules, t), processRules));
      EitherWord(WordOf(threadLocalRules, t), processRules);
      ContainsBits(Union(WordOf(threadLocalRules, t), processRules), rule);
    }

    /** The cached flag is the slow event rule of the process word, whoever set it. */
    method NeedCheckSlowEvent() returns (b: bool)
      requires Refines()
      ensures b <==> LastIsAdd(history, SlowEvent, None)
    {
      b := checkMode;
    }

    /** What other threads add and remove while this one notifies. Their notifications change no rule. */
    method Others(t: Thread, calls: seq<Event>)
      requires Refines() && !aborted && ChangesOfOthers(calls, t)
      modifies this
      ensures Refines() && !aborted && history == old(history) + calls && reports == old(reports)
    {
      hide Matches, Sequential;
      for i := 0 to |calls|
        invariant Refines() && !aborted && history == old(history) + calls[..i] && reports == old(reports)
      {
        match calls[i].call
        case Add(rule) => AddRule(calls[i].thread, rule);
        case Remove(rule) => RemoveRule(calls[i].thread, rule);
        assert calls[..i + 1] == calls[..i] + [calls[i]];
      }
      assert calls[..|calls|] == calls;
    }

    /** In each notification, `early` is what other threads change after the read of the guard, and `late`
        what they change after the test of the trigger. */
    method NotifySlowProcess(t: Thread, early: seq<Event>, late: seq<Event>)
      requires Refines() && !aborted && ChangesOfOthers(early, t) && ChangesOfOthers(late, t)
      modifies this
      ensures Refines() && history == old(history) + early + late + [Notified(old(history), t, OfSlowProcess, early)]
      ensures aborted <==>
              LastIsAdd(old(history), SlowProcess, Some(t)) && LastIsAdd(old(history), TriggerCrash, Some(t))
      ensures reports == old(reports) + if LastIsAdd(old(history), SlowProcess, Some(t)) then
                [Report(t, if LastIsAdd(old(history), TriggerCrash, Some(t)) then Crash else Log)] else []
    {
      GuardInWords(history, threadLocalRules, processRules, checkMode, t, OfSlowProcess);
      hide Matches, Sequential, Emitted, ChangesOfOthers, Handled, Asked, LastIsAdd, InThread, InProcess, AnyInThread,
           AnyInProcess, HasBit, Has, CheckRule, Visible, OutcomeAt;
      var asked := HasBit(WordOf(threadLocalRules, t), RULE_THREAD_CHECK_SLOW_PROCESS);
      Others(t, early);
      if asked {
        HandleCaution(t, RULE_THREAD_CHECK_SLOW_PROCESS, late);
      } else {
        Others(t, late);
      }
      OutcomeIs(old(history), early, late, t, OfSlowProcess);
      ThreadNoticeAlone(old(history), early, late, t, OfSlowProcess);
      Record(t, OfSlowProcess, old(history), early, late);
    }

    method NotifyNetWorkUsage(t: Thread, early: seq<Event>, late: seq<Event>)
      requires Refines() && !aborted && ChangesOfOthers(early, t) && ChangesOfOthers(late, t)
      modifies this
      ensures Refines() && history == old(history) + early + late + [Notified(old(history), t, OfNetworkUsage, early)]
      ensures aborted <==>
              LastIsAdd(old(history), NetworkUsage, Some(t)) && LastIsAdd(old(history), TriggerCrash, Some(t))
      ensures reports == old(reports) + if LastIsAdd(old(history), NetworkUsage, Some(t)) then
                [Report(t, if LastIsAdd(old(history), TriggerCrash, Some(t)) then Crash else Log)] else []
    {
      GuardInWords(history, threadLocalRules, processRules, checkMode, t, OfNetworkUsage);
      hide Matches, Sequential, Emitted, ChangesOfOthers, Handled, Asked, LastIsAdd, InThread, InProcess, AnyInThread,
           AnyInProcess, HasBit, Has, CheckRule, Visible, OutcomeAt;
      var asked := HasBit(WordOf(threadLocalRules, t), RULE_THREAD_CHECK_NETWORK_USAGE);
      Others(t, early);
      if asked {
        HandleCaution(t, RULE_THREAD_CHECK_NETWORK_USAGE, late);
      } else {
        Others(t, late);
      }
      OutcomeIs(old(history), early, late, t, OfNetworkUsage);
      ThreadNoticeAlone(old(history), early, late, t, OfNetworkUsage);
      Record(t, OfNetworkUsage, old(history), early, late);
    }

    method NotifySlowEvent(t: Thread, early: seq<Event>, late: seq<Event>)
      requires Refines() && !aborted && ChangesOfOthers(early, t) && ChangesOfOthers(late, t)
      modifies this
      ensures Refines() && history == old(history) + early + late + [Notified(old(history), t, OfSlowEvent, early)]
      ensures var seen := LastIsAdd(old(history), SlowEvent, None) && LastIsAdd(old(history) + early, SlowEvent, None);
              var crash := LastIsAdd(old(history) + early + late, TriggerCrash, None);
              && (aborted <==> seen && crash)
              && reports == old(reports) + if seen then [Report(t, if crash then Crash else Log)] else []
    {
      GuardInWords(history, threadLocalRules, processRules, checkMode, t, OfSlowEvent);
      hide Matches, Sequential, Emitted, ChangesOfOthers, Handled, Asked, LastIsAdd, InThread, InProcess, AnyInThread,
           AnyInProcess, HasBit, Has, CheckRule, Visible, OutcomeAt;
      var asked := HasBit(processRules, RULE_CHECK_SLOW_EVENT);
      Others(t, early);
      if asked {
        HandleCaution(t, RULE_CHECK_SLOW_EVENT, late);
      } else {
        Others(t, late);
      }
      OutcomeIs(old(history), early, late, t, OfSlowEvent);
      SlowEventCalls(old(history), old(history) + early, old(history) + early + late, t);
      Record(t, OfSlowEvent, old(history), early, late);
    }

    method NotifyAbilityConnectionLeak(t: Thread, trigger: Word, early: seq<Event>, late: seq<Event>)
      requires Refines() && !aborted && ChangesOfOthers(early, t) && ChangesOfOthers(late, t)
      modifies this
      ensures Refines()
              && history == old(history) + early + late + [Notified(old(history), t, OfConnectionLeak(trigger), early)]
      ensures var outcome := if LastIsAdd(old(history), ConnectionLeak, None)
                             then Handled(old(history) + early, old(history) + early + late, t, trigger) else Nothing;
              && (aborted <==> outcome == Crash)
              && reports == old(reports) + if outcome == Nothing then [] else [Report(t, outcome)]
    {
      GuardInWords(history, threadLocalRules, processRules, checkMode, t, OfConnectionLeak(trigger));
      hide Matches, Sequential, Emitted, ChangesOfOthers, Handled, Asked, LastIsAdd, InThread, InProcess, AnyInThread,
           AnyInProcess, HasBit, Has, CheckRule, Visible, OutcomeAt;
      var asked := HasBit(processRules, RULE_CHECK_ABILITY_CONNECTION_LEAK);
      Others(t, early);
      if asked {
        HandleCaution(t, trigger, late);
      } else {
        Others(t, late);
      }
      OutcomeIs(old(history), early, late, t, OfConnectionLeak(trigger));
      Record(t, OfConnectionLeak(trigger), old(history), early, late);
    }

    /** The rule asked for and the trigger of the caution may differ. */
    method NotifyCaution(t: Thread, rule: Word, trigger: Word, early: seq<Event>, late: seq<Event>)
      requires Refines() && !aborted && ChangesOfOthers(early, t) && ChangesOfOthers(late, t)
      modifies this
      ensures Refines()
              && history == old(history) + early + late + [Notified(old(history), t, OfCaution(rule, trigger), early)]
      ensures var outcome := if exists r :: Has(rule, r) && Visible(old(history), t, r)
                             then Handled(old(history) + early, old(history) + early + late, t, trigger) else Nothing;
              && (aborted <==> outcome == Crash)
              && reports == old(reports) + if outcome == Nothing then [] else [Report(t, outcome)]
    {
      GuardInWords(history, threadLocalRules, processRules, checkMode, t, OfCaution(rule, trigger));
      hide Matches, Sequential, Emitted, ChangesOfOthers, Handled, Asked, LastIsAdd, InThread, InProcess, AnyInThread,
           AnyInProcess, HasBit, Has, CheckRule, Visible, OutcomeAt;
      var asked := HasBit(WordOf(threadLocalRules, t), rule) || HasBit(processRules, rule);
      Others(t, early);
      if asked {
        HandleCaution(t, trigger, late);
      } else {
        Others(t, late);
      }
      OutcomeIs(old(history), early, late, t, OfCaution(rule, trigger));
      Record(t, OfCaution(rule, trigger), old(history), early, late);
    }

    ghost method Record(t: Thread, n: Notice, before: seq<Event>, early: seq<Event>, late: seq<Event>)
      requires RulesMatch() && Sequential(history) && history == before + early + late
      requires ChangesOfOthers(early, t) && ChangesOfOthers(late, t)
      requires reports == Emitted(history) + ReportOf(t, OutcomeAt(before, before + early, history, t, n))
      modifies this`history
      ensures Refines() && history == before + early + late + [Notified(before, t, n, early)]
    {
      hide Matches, OutcomeAt, Sequential;
      var e := Notified(before, t, n, early);
      assert UpTo(history, |before|) == before && UpTo(history, |before| + |early|) == before + early;
      EmittedMore(history, e);
      SequentialMore(history, e);
      OthersMatch(history, threadLocalRules, processRules, checkMode, e);
      history := history + [e];
    }

    /** Other threads change `late` between the test of the trigger and the copy of the rules. */
    method HandleCaution(t: Thread, trigger: Word, late: seq<Event>)
      requires Refines() && !aborted && ChangesOfOthers(late, t)
      modifies this
      ensures RulesMatch() && Sequential(history) && history == old(history) + late
      ensures reports == old(reports) + ReportOf(t, Handled(old(history), history, t, trigger))
      ensures old(reports) == Emitted(history)
      ensures aborted <==> Handled(old(history), history, t, trigger) == Crash
    {
      hide Matches, Has, HasBit, OnlyRules, InThread, InProcess, AnyInThread, AnyInProcess, Sequential,
           ChangesOfOthers, Emitted;
      MaskedWords(history, threadLocalRules, processRules, checkMode, t, trigger);
      if HasBit(WordOf(threadLocalRules, t), trigger) {
        Others(t, late);
        HasRules(history, threadLocalRules, processRules, checkMode, t, TriggerCrash);
        var cautionDetail := new CautionDetail(WordOf(threadLocalRules, t));
        OnThreadCautionFound(t, cautionDetail);
        return;
      }
      if HasBit(processRules, trigger) {
        Others(t, late);
        HasRules(history, threadLocalRules, processRules, checkMode, t, TriggerCrash);
        var cautionDetail := new CautionDetail(processRules);
        OnThreadCautionFound(t, cautionDetail);
        return;
      }
      Others(t, late);
    }

    /** Also what OnProcessCautionFound does. */
    method OnThreadCautionFound(t: Thread, cautionDetail: CautionDetail)
      requires !aborted
      modifies this`reports, this`aborted, cautionDetail
      ensures reports == old(reports) + [Report(t, if Has(old(cautionDetail.rules), TriggerCrash) then Crash else Log)]
      ensures aborted <==> Has(old(cautionDetail.rules), TriggerCrash)
    {
      hide Has, HasBit, Within, Union;
      NoCaution(cautionDetail.rules);
      if !HasBit(cautionDetail.rules, ALL_CAUTION_RULES) {
        LogByDefault(cautionDetail.rules);
        cautionDetail.rules := Union(cautionDetail.rules, RULE_CAUTION_PRINT_LOG);
      }
      EnableBits(cautionDetail.rules, PrintLog);
      EnableBits(cautionDetail.rules, TriggerCrash);
      if cautionDetail.CautionEnable(PrintLog) && !cautionDetail.CautionEnable(TriggerCrash) {
        reports := reports + [Report(t, Log)];
      }
      if cautionDetail.CautionEnable(TriggerCrash) {
        reports := reports + [Report(t, Crash)];
        aborted := true;
      }
    }
  }

  lemma LogByDefault(w: Word)
    ensures Has(Union(w, RULE_CAUTION_PRINT_LOG), PrintLog)
    ensures Has(Union(w, RULE_CAUTION_PRINT_LOG), TriggerCrash) <==> Has(w, TriggerCrash)
  {
    hide Has, Union;
    WordOperations(w, RULE_CAUTION_PRINT_LOG, PrintLog);
    WordOperations(w, RULE_CAUTION_PRINT_LOG, TriggerCrash);
    RuleOfBit(PrintLog, PrintLog);
    RuleOfBit(TriggerCrash, PrintLog);
  }

  // ----- what the reads of a notification see -----

  /** Between two moments without a call that names the rule, it stays as it is. */
  lemma {:induction false} Unnamed(h: seq<Event>, a: nat, r: Rule, who: Option<Thread>)
    requires a <= |h| && forall j | a <= j < |h| :: !Names(h[j], r, who)
    ensures LastIsAdd(h[..a], r, who) <==> LastIsAdd(h, r, who)
    decreases |h|
  {
    hide Names, LastIsAdd;
    if a == |h| {
      assert h[..a] == h;
    } else {
      var before := h[..|h| - 1];
      assert before[..a] == h[..a] && h == before + [h[|h| - 1]];
      Unnamed(before, a, r, who);
      OneMoreCall(before, h[|h| - 1], r, who);
    }
  }

  /** Whatever others do, a thread's own rules stay as they are. */
  lemma OthersKeepThread(h: seq<Event>, a: nat, t: Thread, r: Rule)
    requires a <= |h| && forall j | a <= j < |h| :: h[j].thread != t
    ensures InThread(h[..a], t, r) <==> InThread(h, t, r)
  {
    hide Has, CheckRule, LastIsAdd;
    Unnamed(h, a, r, Some(t));
  }

  lemma OthersKeepMask(h: seq<Event>, a: nat, t: Thread, mask: Word)
    requires a <= |h| && forall j | a <= j < |h| :: h[j].thread != t
    ensures AnyInThread(h[..a], t, mask) <==> AnyInThread(h, t, mask)
  {
    hide Has, InThread;
    forall r ensures InThread(h[..a], t, r) <==> InThread(h, t, r) {
      OthersKeepThread(h, a, t, r);
    }
  }

  function ThreadRule(n: Notice): Rule {
    if n.OfSlowProcess? then SlowProcess else NetworkUsage
  }

  /** Slow calls and network use: a matter of the thread's own rules. */
  lemma ThreadNotice(guard: seq<Event>, test: seq<Event>, copy: seq<Event>, t: Thread, n: Notice)
    requires OnThreadRules(n)
    ensures OutcomeAt(guard, test, copy, t, n) ==
            if !InThread(guard, t, ThreadRule(n)) || !InThread(test, t, ThreadRule(n)) then Nothing
            else if InThread(copy, t, TriggerCrash) then Crash else Log
  {
    OnlyOwnRules(test);
    MaskOfRule(test, t, SlowProcess);
    MaskOfRule(test, t, NetworkUsage);
    hide InThread, InProcess, AnyInThread, AnyInProcess;
  }

  /** So nothing others do in between matters. */
  lemma ThreadNoticeAlone(h: seq<Event>, early: seq<Event>, late: seq<Event>, t: Thread, n: Notice)
    requires OnThreadRules(n) && ChangesOfOthers(early, t) && ChangesOfOthers(late, t)
    ensures OutcomeAt(h, h + early, h + early + late, t, n) == AtOnce(h, t, n)
            == if !LastIsAdd(h, ThreadRule(n), Some(t)) then Nothing
               else if LastIsAdd(h, TriggerCrash, Some(t)) then Crash else Log
  {
    OwnCalls(h, t, ThreadRule(n));
    OwnCalls(h, t, TriggerCrash);
    hide InThread, OutcomeAt, LastIsAdd;
    ThreadNotice(h, h + early, h + early + late, t, n);
    ThreadNotice(h, h, h, t, n);
    assert (h + early)[..|h|] == h == (h + early + late)[..|h|];
    OthersKeepThread(h + early, |h|, t, ThreadRule(n));
    OthersKeepThread(h + early + late, |h|, t, TriggerCrash);
  }

  /** Slow events: a matter of the process's rules. */
  lemma SlowEventNotice(guard: seq<Event>, test: seq<Event>, copy: seq<Event>, t: Thread)
    ensures OutcomeAt(guard, test, copy, t, OfSlowEvent) ==
            if !InProcess(guard, SlowEvent) || !InProcess(test, SlowEvent) then Nothing
            else if InProcess(copy, TriggerCrash) then Crash else Log
  {
    OnlyOwnRules(test);
    MaskOfRule(test, t, SlowEvent);
    hide InThread, InProcess, AnyInThread, AnyInProcess;
  }

  lemma SlowEventCalls(guard: seq<Event>, test: seq<Event>, copy: seq<Event>, t: Thread)
    ensures OutcomeAt(guard, test, copy, t, OfSlowEvent) ==
            if !LastIsAdd(guard, SlowEvent, None) || !LastIsAdd(test, SlowEvent, None) then Nothing
            else if LastIsAdd(copy, TriggerCrash, None) then Crash else Log
  {
    AnyonesCalls(guard, SlowEvent);
    AnyonesCalls(test, SlowEvent);
    AnyonesCalls(copy, TriggerCrash);
    hide InProcess, OutcomeAt, LastIsAdd;
    SlowEventNotice(guard, test, copy, t);
  }

  // ----- reads at one moment -----

  /** The outcome of reads made after h and the first i, j and k of the others' calls. */
  ghost function Reads(h: seq<Event>, calls: seq<Event>, i: nat, j: nat, k: nat, t: Thread, n: Notice): Outcome {
    OutcomeAt(h + UpTo(calls, i), h + UpTo(calls, j), h + UpTo(calls, k), t, n)
  }

  /** What the three reads come to is what they would have come to at some moment from first to last. */
  ghost predicate OfOneMoment(h: seq<Event>, calls: seq<Event>, j: nat, k: nat, t: Thread, n: Notice) {
    exists m: nat :: m <= k && Reads(h, calls, 0, j, k, t, n) == Reads(h, calls, m, m, m, t, n)
  }

  /** What the three reads would find after the first m calls. */
  ghost function AskedThen(h: seq<Event>, calls: seq<Event>, t: Thread, n: Notice): nat -> bool {
    (m: nat) => Asked(h + UpTo(calls, m), t, n)
  }

  ghost function TriggeredThen(h: seq<Event>, calls: seq<Event>, t: Thread, n: Notice): nat -> bool {
    (m: nat) => Triggered(h + UpTo(calls, m), t, n.Trigger())
  }

  ghost function CrashThen(h: seq<Event>, calls: seq<Event>, t: Thread, n: Notice): nat -> bool {
    (m: nat) => CrashSet(h + UpTo(calls, m), h + UpTo(calls, m), t, n.Trigger())
  }

  /** From j, the first moment the trigger is there, k is j itself or the first change of the crash rule. */
  ghost predicate Turn(triggered: nat -> bool, crash: nat -> bool, j: nat, k: nat) {
    && j <= k && triggered(j) && (forall m: nat | m < j :: !triggered(m))
    && (k == j || crash(k) != crash(j)) && (forall m: nat | j <= m < k :: crash(m) == crash(j))
  }

  /** The rules change in order: at both turns the guard holds and the trigger is there. */
  ghost predicate InOrder(asked: nat -> bool, triggered: nat -> bool, crash: nat -> bool, n: nat) {
    forall j: nat, k: nat | j <= k <= n && Turn(triggered, crash, j, k) :: asked(k) && triggered(k)
  }

  /** Up to k there is a moment with guard and trigger and the crash rule as it is at k. */
  ghost predicate Fits(asked: nat -> bool, triggered: nat -> bool, crash: nat -> bool, k: nat) {
    exists m: nat :: m <= k && asked(m) && triggered(m) && crash(m) == crash(k)
  }

  /** Which notifications are as good as one step: however the reads fall among the calls of other threads,
      the outcome is that of one moment, if and only if the guard fails at once or the others' calls
      change the rules in order. */
  lemma OneMomentExactly(h: seq<Event>, calls: seq<Event>, t: Thread, n: Notice)
    requires ChangesOfOthers(calls, t)
    ensures (forall j: nat, k: nat | j <= k <= |calls| :: OfOneMoment(h, calls, j, k, t, n))
            <==> (Asked(h, t, n) ==> InOrder(AskedThen(h, calls, t, n), TriggeredThen(h, calls, t, n),
                                             CrashThen(h, calls, t, n), |calls|))
  {
    var asked, triggered, crash :=
      AskedThen(h, calls, t, n), TriggeredThen(h, calls, t, n), CrashThen(h, calls, t, n);
    assert asked(0) == Asked(h, t, n) by { assert h + UpTo(calls, 0) == h; }
    hide *;
    MomentsFit(h, calls, t, n);
    if asked(0) {
      ReadsInOrder(asked, triggered, crash, |calls|);
    }
  }

  ghost predicate AllFit(asked: nat -> bool, triggered: nat -> bool, crash: nat -> bool, n: nat) {
    forall j: nat, k: nat | j <= k <= n && triggered(j) :: Fits(asked, triggered, crash, k)
  }

  lemma MomentsFit(h: seq<Event>, calls: seq<Event>, t: Thread, n: Notice)
    requires ChangesOfOthers(calls, t)
    ensures (forall j: nat, k: nat | j <= k <= |calls| :: OfOneMoment(h, calls, j, k, t, n))
            <==> (AskedThen(h, calls, t, n)(0) ==>
                    AllFit(AskedThen(h, calls, t, n), TriggeredThen(h, calls, t, n), CrashThen(h, calls, t, n), |calls|))
  {
    hide AskedThen, TriggeredThen, CrashThen, OfOneMoment, Fits;
    forall j: nat, k: nat | j <= k <= |calls|
      ensures OfOneMoment(h, calls, j, k, t, n) <==>
              (AskedThen(h, calls, t, n)(0) && TriggeredThen(h, calls, t, n)(j) ==>
                 Fits(AskedThen(h, calls, t, n), TriggeredThen(h, calls, t, n), CrashThen(h, calls, t, n), k))
    {
      OneMomentMeans(h, calls, j, k, t, n);
    }
  }

  lemma OneMomentMeans(h: seq<Event>, calls: seq<Event>, j: nat, k: nat, t: Thread, n: Notice)
    requires j <= k <= |calls| && ChangesOfOthers(calls, t)
    ensures OfOneMoment(h, calls, j, k, t, n) <==>
            (AskedThen(h, calls, t, n)(0) && TriggeredThen(h, calls, t, n)(j) ==>
               Fits(AskedThen(h, calls, t, n), TriggeredThen(h, calls, t, n), CrashThen(h, calls, t, n), k))
  {
    CrashRead(h, calls, j, k, t, n);
    hide Asked, Triggered, CrashSet, UpTo;
    if !AskedThen(h, calls, t, n)(0) {
      assert Reads(h, calls, 0, 0, 0, t, n) == Nothing;
    } else if !TriggeredThen(h, calls, t, n)(j) {
      assert Reads(h, calls, j, j, j, t, n) == Nothing;
    } else {
      forall m: nat
        ensures Reads(h, calls, 0, j, k, t, n) == Reads(h, calls, m, m, m, t, n) <==>
                AskedThen(h, calls, t, n)(m) && TriggeredThen(h, calls, t, n)(m)
                && CrashThen(h, calls, t, n)(m) == CrashThen(h, calls, t, n)(k)
      {}
    }
  }

  /** The thread's part of the test does not change. */
  lemma CrashRead(h: seq<Event>, calls: seq<Event>, j: nat, k: nat, t: Thread, n: Notice)
    requires j <= k <= |calls| && ChangesOfOthers(calls, t)
    ensures CrashSet(h + UpTo(calls, j), h + UpTo(calls, k), t, n.Trigger()) <==> CrashThen(h, calls, t, n)(k)
  {
    hide AnyInThread, InThread, InProcess;
    var g := h + calls[..k];
    assert g[..|h| + j] == h + calls[..j];
    OthersKeepMask(g, |h| + j, t, n.Trigger());
  }

  lemma ReadsInOrder(asked: nat -> bool, triggered: nat -> bool, crash: nat -> bool, n: nat)
    ensures AllFit(asked, triggered, crash, n) <==> InOrder(asked, triggered, crash, n)
  {
    if AllFit(asked, triggered, crash, n) {
      forall j: nat, k: nat | j <= k <= n && Turn(triggered, crash, j, k) ensures asked(k) && triggered(k) {
        assert Fits(asked, triggered, crash, k);
      }
    }
    if InOrder(asked, triggered, crash, n) {
      forall j: nat, k: nat | j <= k <= n && triggered(j) ensures Fits(asked, triggered, crash, k) {
        OrderFits(asked, triggered, crash, n, j, k);
      }
    }
  }

  lemma OrderFits(asked: nat -> bool, triggered: nat -> bool, crash: nat -> bool, n: nat, j: nat, k: nat)
    requires InOrder(asked, triggered, crash, n) && j <= k <= n && triggered(j)
    ensures Fits(asked, triggered, crash, k)
  {
    var start := First(triggered, j);
    assert Turn(triggered, crash, start, start);
    if crash(k) != crash(start) {
      var changed := (m: nat) => m >= start && crash(m) != crash(start);
      var change := First(changed, k);
      forall m: nat | start <= m < change ensures crash(m) == crash(start) {
        assert !changed(m);
      }
      assert Turn(triggered, crash, start, change);
    }
  }

  lemma First(p: nat -> bool, n: nat) returns (m: nat)
    requires p(n)
    ensures m <= n && p(m) && forall i: nat | i < m :: !p(i)
  {
    m := 0;
    while !p(m)
      invariant m <= n && forall i: nat | i < m :: !p(i)
      decreases n - m
    {
      m := m + 1;
    }
  }

  /** A rule the guard of a notification asks for. */
  predicate AsksFor(n: Notice, r: Rule) {
    match n
    case OfSlowProcess => r == SlowProcess
    case OfNetworkUsage => r == NetworkUsage
    case OfSlowEvent => r == SlowEvent
    case OfConnectionLeak(_) => r == ConnectionLeak
    case OfCaution(rule, _) => Has(rule, r)
  }

  /** No valid call among these names the rule. */
  ghost predicate Untouched(calls: seq<Event>, r: Rule) {
    forall i | 0 <= i < |calls| :: !Names(calls[i], r, None)
  }

  lemma UntouchedStays(h: seq<Event>, calls: seq<Event>, m: nat, t: Thread, r: Rule)
    requires ChangesOfOthers(calls, t)
    ensures InThread(h + UpTo(calls, m), t, r) <==> InThread(h, t, r)
    ensures Untouched(calls, r) ==> (InProcess(h + UpTo(calls, m), r) <==> InProcess(h, r))
  {
    hide Names, LastIsAdd;
    var g := h + UpTo(calls, m);
    assert g[..|h|] == h;
    OthersKeepThread(g, |h|, t, r);
    if Untouched(calls, r) {
      Unnamed(g, |h|, r, None);
    }
  }

  lemma AskedStays(h: seq<Event>, calls: seq<Event>, m: nat, t: Thread, n: Notice)
    requires ChangesOfOthers(calls, t) && forall r | AsksFor(n, r) :: Untouched(calls, r)
    ensures Asked(h + UpTo(calls, m), t, n) <==> Asked(h, t, n)
  {
    hide Has, InThread, InProcess, Untouched, ChangesOfOthers, UpTo;
    forall r | AsksFor(n, r)
      ensures InThread(h + UpTo(calls, m), t, r) <==> InThread(h, t, r)
      ensures InProcess(h + UpTo(calls, m), r) <==> InProcess(h, r)
    {
      UntouchedStays(h, calls, m, t, r);
    }
  }

  lemma TriggerStays(h: seq<Event>, calls: seq<Event>, m: nat, t: Thread, mask: Word)
    requires ChangesOfOthers(calls, t)
    ensures AnyInThread(h + UpTo(calls, m), t, mask) <==> AnyInThread(h, t, mask)
    ensures (forall r | Has(mask, r) :: Untouched(calls, r)) ==>
              (AnyInProcess(h + UpTo(calls, m), mask) <==> AnyInProcess(h, mask))
  {
    hide Has, InThread, InProcess, Untouched, ChangesOfOthers, UpTo;
    forall r
      ensures InThread(h + UpTo(calls, m), t, r) <==> InThread(h, t, r)
      ensures Untouched(calls, r) ==> (InProcess(h + UpTo(calls, m), r) <==> InProcess(h, r))
    {
      UntouchedStays(h, calls, m, t, r);
    }
  }

  /** A notification is as good as one step when the others' calls name no rule it asks for, and either no
      rule of its trigger or not the crash rule. */
  lemma QuietCallsAreOneMoment(h: seq<Event>, calls: seq<Event>, t: Thread, n: Notice, j: nat, k: nat)
    requires ChangesOfOthers(calls, t) && j <= k <= |calls|
    requires forall r | AsksFor(n, r) :: Untouched(calls, r)
    requires Untouched(calls, TriggerCrash) || forall r | Has(n.Trigger(), r) :: Untouched(calls, r)
    ensures OfOneMoment(h, calls, j, k, t, n)
  {
    hide Has, InThread, InProcess, AnyInThread, AnyInProcess, Asked, Untouched, ChangesOfOthers, UpTo, Notice.Trigger;
    AskedStays(h, calls, 0, t, n);
    AskedStays(h, calls, j, t, n);
    AskedStays(h, calls, k, t, n);
    TriggerStays(h, calls, j, t, n.Trigger());
    TriggerStays(h, calls, k, t, n.Trigger());
    UntouchedStays(h, calls, j, t, TriggerCrash);
    UntouchedStays(h, calls, k, t, TriggerCrash);
    if Untouched(calls, TriggerCrash) {
      assert Reads(h, calls, 0, j, k, t, n) == Reads(h, calls, j, j, j, t, n);
    } else {
      assert Reads(h, calls, 0, j, k, t, n) == Reads(h, calls, k, k, k, t, n);
    }
  }

  /** That of a slow event is already when they do not name both its rule and the crash rule. */
  lemma QuietSlowEvent(h: seq<Event>, calls: seq<Event>, t: Thread, j: nat, k: nat)
    requires ChangesOfOthers(calls, t) && j <= k <= |calls|
    requires Untouched(calls, TriggerCrash) || Untouched(calls, SlowEvent)
    ensures OfOneMoment(h, calls, j, k, t, OfSlowEvent)
  {
    hide InProcess, OutcomeAt, Reads, Untouched, ChangesOfOthers, UpTo;
    SlowEventReads(h, calls, 0, j, k, t);
    SlowEventReads(h, calls, 0, 0, 0, t);
    SlowEventReads(h, calls, j, j, j, t);
    SlowEventReads(h, calls, k, k, k, t);
    UntouchedStays(h, calls, 0, t, SlowEvent);
    UntouchedStays(h, calls, j, t, SlowEvent);
    UntouchedStays(h, calls, k, t, SlowEvent);
    UntouchedStays(h, calls, 0, t, TriggerCrash);
    UntouchedStays(h, calls, j, t, TriggerCrash);
    UntouchedStays(h, calls, k, t, TriggerCrash);
  }

  lemma SlowEventReads(h: seq<Event>, calls: seq<Event>, i: nat, j: nat, k: nat, t: Thread)
    ensures Reads(h, calls, i, j, k, t, OfSlowEvent) ==
            if !InProcess(h + UpTo(calls, i), SlowEvent) || !InProcess(h + UpTo(calls, j), SlowEvent) then Nothing
            else if InProcess(h + UpTo(calls, k), TriggerCrash) then Crash else Log
  {
    hide InProcess, OutcomeAt, UpTo;
    SlowEventNotice(h + UpTo(calls, i), h + UpTo(calls, j), h + UpTo(calls, k), t);
  }

  /** One on thread rules always is. */
  lemma ThreadNoticeIsOneMoment(h: seq<Event>, calls: seq<Event>, t: Thread, n: Notice, j: nat, k: nat)
    requires ChangesOfOthers(calls, t) && j <= k <= |calls| && OnThreadRules(n)
    ensures OfOneMoment(h, calls, j, k, t, n)
  {
    var h0 := h + UpTo(calls, 0);
    ThreadNotice(h0, h + UpTo(calls, j), h + UpTo(calls, k), t, n);
    ThreadNotice(h0, h0, h0, t, n);
    hide InThread, InProcess, OutcomeAt, UpTo;
    UntouchedStays(h, calls, 0, t, ThreadRule(n));
    UntouchedStays(h, calls, j, t, ThreadRule(n));
    UntouchedStays(h, calls, 0, t, TriggerCrash);
    UntouchedStays(h, calls, k, t, TriggerCrash);
    assert Reads(h, calls, 0, j, k, t, n) == Reads(h, calls, 0, 0, 0, t, n);
  }

  // ----- threads do not interfere -----

  /** What a thread does by itself: nothing comes between its reads. */
  function Own(h: seq<Event>, t: Thread): seq<Event> {
    if h == [] then []
    else
      var before, e := h[..|h| - 1], h[|h| - 1];
      Own(before, t) + if e.thread == t then [Alone(e, |Own(before, t)|)] else []
  }

  function Alone(e: Event, now: nat): Event {
    if e.call.Notify? then e.(call := e.call.(guard := now, test := now)) else e
  }

  predicate OnThreadRules(n: Notice) {
    n.OfSlowProcess? || n.OfNetworkUsage?
  }

  /** What a thread's notifications of slow calls and network use come to, in order. */
  ghost function Observed(h: seq<Event>, t: Thread): seq<Outcome> {
    if h == [] then []
    else
      var before, e := h[..|h| - 1], h[|h| - 1];
      Observed(before, t)
      + if e.thread == t && e.call.Notify? && OnThreadRules(e.call.notice) then [OutcomeOf(before, e)] else []
  }

  /** A thread's rules are the same without the other threads. */
  lemma {:induction false} OwnRulesAlone(h: seq<Event>, t: Thread, r: Rule)
    ensures InThread(Own(h, t), t, r) <==> InThread(h, t, r)
  {
    hide Has, CheckRule, LastIsAdd;
    if h != [] {
      var before, e := h[..|h| - 1], h[|h| - 1];
      assert h == before + [e];
      OwnRulesAlone(before, t, r);
      OneMoreCall(before, e, r, Some(t));
      var alone := Alone(e, |Own(before, t)|);
      OneMoreCall(Own(before, t), alone, r, Some(t));
      assert Names(alone, r, Some(t)) <==> Names(e, r, Some(t));
      assert Own(h, t) == if e.thread == t then Own(before, t) + [alone] else Own(before, t);
    }
  }

  /** The same for what a notification of the thread comes to. */
  lemma OutcomeAlone(h: seq<Event>, e: Event)
    requires e.call.Notify? && OnThreadRules(e.call.notice) && TakesTime(h, e)
    ensures OutcomeOf(Own(h, e.thread), Alone(e, |Own(h, e.thread)|)) == OutcomeOf(h, e)
  {
    var t, n, alone := e.thread, e.call.notice, Own(h, e.thread);
    ThreadNotice(alone, alone, alone, t, n);
    ThreadNotice(h[..e.call.guard], h[..e.call.test], h, t, n);
    hide InThread, OutcomeAt;
    assert alone[..|alone|] == alone;
    OwnRulesAlone(h, t, ThreadRule(n));
    OwnRulesAlone(h, t, TriggerCrash);
    OthersKeepThread(h, e.call.guard, t, ThreadRule(n));
    OthersKeepThread(h, e.call.test, t, ThreadRule(n));
  }

  /** Whatever the other threads add, remove or notify, and whenever, a thread's notifications on thread
      rules come to what they come to in a run without those threads. */
  lemma {:induction false} ThreadsDoNotInterfere(h: seq<Event>, t: Thread)
    requires Sequential(h)
    ensures Observed(h, t) == Observed(Own(h, t), t)
  {
    hide OutcomeOf, TakesTime;
    if h != [] {
      var before, e := h[..|h| - 1], h[|h| - 1];
      assert h == before + [e];
      SequentialMore(before, e);
      ThreadsDoNotInterfere(before, t);
      var alone := Own(before, t);
      assert Own(h, t) == if e.thread == t then alone + [Alone(e, |alone|)] else alone;
      assert e.thread == t ==> Own(h, t)[..|alone|] == alone;
      if e.thread == t && e.call.Notify? && OnThreadRules(e.call.notice) {
        OutcomeAlone(before, e);
      }
    }
  }

  lemma OwnMaskAlone(h: seq<Event>, t: Thread, mask: Word)
    ensures AnyInThread(Own(h, t), t, mask) <==> AnyInThread(h, t, mask)
  {
    hide Has, InThread;
    forall r ensures InThread(Own(h, t), t, r) <==> InThread(h, t, r) {
      OwnRulesAlone(h, t, r);
    }
  }

  /** A caution whose trigger the thread itself has set comes to what it comes to without the other threads,
      whatever rules they have set for the process. */
  lemma OwnTriggersDoNotInterfere(h: seq<Event>, t: Thread, trigger: Word)
    requires exists r :: Has(trigger, r) && !r.IsProcessRule() && LastIsAdd(h, r, Some(t))
    ensures Handled(h, h, t, trigger) == Handled(Own(h, t), Own(h, t), t, trigger)
            == if LastIsAdd(h, TriggerCrash, Some(t)) then Crash else Log
  {
    var r :| Has(trigger, r) && !r.IsProcessRule() && LastIsAdd(h, r, Some(t));
    OwnCalls(h, t, r);
    OwnCalls(h, t, TriggerCrash);
    OwnMaskAlone(h, t, trigger);
    OwnRulesAlone(h, t, TriggerCrash);
    hide Has, LastIsAdd, InThread;
  }

  /** Process rules are shared: what another thread adds decides the outcome of a slow event. */
  lemma SlowEventsInterfere(t: Thread, u: Thread)
    requires t != u
    ensures var h := [Event(u, Add(RULE_CHECK_SLOW_EVENT))];
            AtOnce(h, t, OfSlowEvent) == Log && AtOnce(Own(h, t), t, OfSlowEvent) == Nothing
  {
    var e := Event(u, Add(RULE_CHECK_SLOW_EVENT));
    assert [e] == [] + [e];
    assert Own([e], t) == [];
    RuleOfBit(TriggerCrash, SlowEvent);
    RuleOfBit(SlowEvent, SlowEvent);
    CallMoves([], e);
    SlowEventNotice([e], [e], [e], t);
    SlowEventNotice([], [], [], t);
    hide Has;
  }

  /** The reads are not one: while a slow event is handled, another thread removes the slow event rule and
      then adds the crash rule. The process crashes, though at no moment would it have. */
  lemma CrashOfNoMoment(t: Thread, u: Thread)
    requires t != u
    ensures var h, calls := [Event(u, Add(RULE_CHECK_SLOW_EVENT))],
                            [Event(u, Remove(RULE_CHECK_SLOW_EVENT)), Event(u, Add(RULE_CAUTION_TRIGGER_CRASH))];
            && ChangesOfOthers(calls, t) && Reads(h, calls, 0, 0, 2, t, OfSlowEvent) == Crash
            && forall m: nat | m <= 2 :: Reads(h, calls, m, m, m, t, OfSlowEvent) != Crash
  {
    var h, calls := [Event(u, Add(RULE_CHECK_SLOW_EVENT))],
                    [Event(u, Remove(RULE_CHECK_SLOW_EVENT)), Event(u, Add(RULE_CAUTION_TRIGGER_CRASH))];
    SlowEventsComeAndGo(u, h, calls);
    hide InProcess, Reads;
    SlowEventReads(h, calls, 0, 0, 2, t);
    forall m: nat | m <= 2 ensures Reads(h, calls, m, m, m, t, OfSlowEvent) != Crash {
      SlowEventReads(h, calls, m, m, m, t);
    }
  }

  lemma SlowEventsComeAndGo(u: Thread, h: seq<Event>, calls: seq<Event>)
    requires h == [Event(u, Add(RULE_CHECK_SLOW_EVENT))]
    requires calls == [Event(u, Remove(RULE_CHECK_SLOW_EVENT)), Event(u, Add(RULE_CAUTION_TRIGGER_CRASH))]
    ensures forall m: nat | m <= 2 :: InProcess(h + UpTo(calls, m), SlowEvent) <==> m == 0
    ensures forall m: nat | m <= 2 :: InProcess(h + UpTo(calls, m), TriggerCrash) <==> m == 2
  {
    var h1 := h + [calls[0]];
    assert h + UpTo(calls, 0) == h == [] + h && h + UpTo(calls, 1) == h1 && h + UpTo(calls, 2) == h1 + [calls[1]];
    RuleOfBit(SlowEvent, SlowEvent);
    RuleOfBit(SlowEvent, TriggerCrash);
    RuleOfBit(TriggerCrash, SlowEvent);
    RuleOfBit(TriggerCrash, TriggerCrash);
    CallMoves([], h[0]);
    CallMoves(h, calls[0]);
    CallMoves(h1, calls[1]);
    assert !InProcess([], TriggerCrash);
    hide Has, InProcess, InThread, UpTo;
  }
}
