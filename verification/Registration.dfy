/** Registering for the life cycle of the monitored kinds of objects, and trying again what failed. */
module Registration {
  import opened Common

  type Mask = bv32

  const CUSTOM_COMPONENT: Mask := 1
  const WINDOW: Mask := 2
  const NODE_CONTAINER: Mask := 4
  const X_COMPONENT: Mask := 8
  const ABILITY: Mask := 16

  const ATTEMPT_COUNT: nat := 2

  /** What is registered at once: node containers and X components go together. */
  datatype Kind = CustomComponents | Windows | Nodes | Abilities

  /** Which registrations succeed when they are tried; that of custom components always does. */
  datatype Answers = Answers(windows: bool, nodes: bool, abilities: bool)

  datatype Attempt = Attempt(kind: Kind, ok: bool)

  predicate Asks(config: Mask, bit: Mask) {
    config & bit != 0
  }

  predicate Named(config: Mask, kind: Kind) {
    match kind
    case CustomComponents => Asks(config, CUSTOM_COMPONENT)
    case Windows => Asks(config, WINDOW)
    case Nodes => Asks(config, NODE_CONTAINER) || Asks(config, X_COMPONENT)
    case Abilities => Asks(config, ABILITY)
  }

  function Succeeds(a: Answers, kind: Kind): bool {
    match kind
    case CustomComponents => true
    case Windows => a.windows
    case Nodes => a.nodes
    case Abilities => a.abilities
  }

  predicate Fails(config: Mask, a: Answers, kind: Kind) {
    Named(config, kind) && !Succeeds(a, kind)
  }

  function Tried(config: Mask, a: Answers, kind: Kind): seq<Attempt> {
    if Named(config, kind) then [Attempt(kind, Succeeds(a, kind))] else []
  }

  /** The registrations of one executeRegister, in order. */
  function Attempts(config: Mask, a: Answers): seq<Attempt> {
    Tried(config, a, CustomComponents) + Tried(config, a, Windows)
    + Tried(config, a, Nodes) + Tried(config, a, Abilities)
  }

  /** One more kind in the mask of what to try again. */
  function WithBit(retry: Option<Mask>, first: Mask, bit: Mask): Option<Mask> {
    Some(if retry.None? then first else retry.value | bit)
  }

  function RetryMask(config: Mask, a: Answers): Option<Mask> {
    var w := if Fails(config, a, Windows) then WithBit(None, WINDOW, WINDOW) else None;
    var n := if Fails(config, a, Nodes)
             then WithBit(WithBit(w, NODE_CONTAINER, NODE_CONTAINER), WINDOW, X_COMPONENT) else w;
    if Fails(config, a, Abilities) then WithBit(n, ABILITY, ABILITY) else n
  }

  lemma NamedAfterOr(mask: Mask, bit: Mask, kind: Kind)
    requires bit == WINDOW || bit == NODE_CONTAINER || bit == X_COMPONENT || bit == ABILITY
    ensures Named(mask | bit, kind) <==> Named(mask, kind) || Named(bit, kind)
  {
    assert (mask | bit) & CUSTOM_COMPONENT == (mask & CUSTOM_COMPONENT) | (bit & CUSTOM_COMPONENT);
    assert (mask | bit) & WINDOW == (mask & WINDOW) | (bit & WINDOW);
    assert (mask | bit) & NODE_CONTAINER == (mask & NODE_CONTAINER) | (bit & NODE_CONTAINER);
    assert (mask | bit) & X_COMPONENT == (mask & X_COMPONENT) | (bit & X_COMPONENT);
    assert (mask | bit) & ABILITY == (mask & ABILITY) | (bit & ABILITY);
  }

  /** The bits by which kinds are asked for. */
  lemma BitsOfKinds(kind: Kind)
    ensures Named(1 << 0, kind) <==> kind.CustomComponents?
    ensures Named(1 << 1, kind) <==> kind.Windows?
    ensures Named(1 << 2, kind) <==> kind.Nodes?
    ensures Named(1 << 3, kind) <==> kind.Nodes?
    ensures Named(1 << 4, kind) <==> kind.Abilities?
  {}

  lemma NamedByBit(kind: Kind)
    ensures Named(WINDOW, kind) <==> kind.Windows?
    ensures Named(NODE_CONTAINER, kind) <==> kind.Nodes?
    ensures Named(X_COMPONENT, kind) <==> kind.Nodes?
    ensures Named(ABILITY, kind) <==> kind.Abilities?
  {}

  /** The mask to try again names exactly the kinds that failed, and is there only if some did. */
  lemma RetryNamesFailed(config: Mask, a: Answers, kind: Kind)
    ensures RetryMask(config, a).None? ==> !Fails(config, a, kind)
    ensures RetryMask(config, a).Some? ==> (Named(RetryMask(config, a).value, kind) <==> Fails(config, a, kind))
  {
    hide Named, Asks;
    NamedByBit(kind);
    var w := if Fails(config, a, Windows) then WithBit(None, WINDOW, WINDOW) else None;
    if w.Some? {
      NamedAfterOr(w.value, NODE_CONTAINER, kind);
    }
    var n0 := WithBit(w, NODE_CONTAINER, NODE_CONTAINER);
    NamedAfterOr(n0.value, X_COMPONENT, kind);
    var n := if Fails(config, a, Nodes) then WithBit(n0, WINDOW, X_COMPONENT) else w;
    if n.Some? {
      NamedAfterOr(n.value, ABILITY, kind);
    }
  }

  // ----- the state -----

  /** `session` holds the registrations tried since the watcher was last enabled; `runs` counts
      executeRegister, `sessions` the times the watcher was enabled. */
  datatype State = State(retry: Option<Mask>, currentAttempt: nat, session: seq<Attempt>, runs: nat, sessions: nat)

  const Initial := State(None, 1, [], 0, 0)

  function AfterRegister(s: State, config: Mask, a: Answers): State {
    s.(retry := RetryMask(config, a), session := s.session + Attempts(config, a), runs := s.runs + 1)
  }

  datatype Step = Enable(config: Mask, answers: Answers) | GcCallback(answers: Answers)

  function Next(s: State, step: Step): State {
    match step
    case Enable(config, a) => AfterRegister(s.(session := [], sessions := s.sessions + 1), config, a)
    case GcCallback(a) =>
      if s.currentAttempt <= ATTEMPT_COUNT && s.retry.Some?
      then AfterRegister(s, s.retry.value, a).(currentAttempt := s.currentAttempt + 1)
      else s
  }

  class Registrar {
    var retryMonitorObjectTypes: Option<Mask>
    var currentAttempt: nat
    ghost var session: seq<Attempt>
    ghost var runs: nat
    ghost var sessions: nat

    ghost function Value(): State
      reads this
    {
      State(retryMonitorObjectTypes, currentAttempt, session, runs, sessions)
    }

    constructor ()
      ensures Value() == Initial
    {
      retryMonitorObjectTypes, currentAttempt := None, 1;
      session, runs, sessions := [], 0, 0;
    }

    method ExecuteRegister(config: Mask, a: Answers)
      modifies this
      ensures Value() == AfterRegister(old(Value()), config, a)
    {
      hide Named, Asks, WithBit, Tried;
      retryMonitorObjectTypes := None;
      runs := runs + 1;
      RegisterCustomComponents(config, a);
      RegisterWindows(config, a);
      RegisterNodes(config, a);
      RegisterAbilities(config, a);
      assert session == old(session) + Attempts(config, a);
    }

    method RegisterCustomComponents(config: Mask, ghost a: Answers)
      modifies this`session
      ensures session == old(session) + Tried(config, a, CustomComponents)
    {
      hide Asks;
      if Asks(config, CUSTOM_COMPONENT) {
        session := session + [Attempt(CustomComponents, true)];
      }
    }

    method RegisterWindows(config: Mask, a: Answers)
      modifies this`session, this`retryMonitorObjectTypes
      ensures session == old(session) + Tried(config, a, Windows)
      ensures retryMonitorObjectTypes == if Fails(config, a, Windows)
                                         then WithBit(old(retryMonitorObjectTypes), WINDOW, WINDOW)
                                         else old(retryMonitorObjectTypes)
    {
      hide Asks, WithBit;
      if Asks(config, WINDOW) {
        session := session + [Attempt(Windows, a.windows)];
        if !a.windows {
          retryMonitorObjectTypes := WithBit(retryMonitorObjectTypes, WINDOW, WINDOW);
        }
      }
    }

    method RegisterNodes(config: Mask, a: Answers)
      modifies this`session, this`retryMonitorObjectTypes
      ensures session == old(session) + Tried(config, a, Nodes)
      ensures retryMonitorObjectTypes ==
              if Fails(config, a, Nodes)
              then WithBit(WithBit(old(retryMonitorObjectTypes), NODE_CONTAINER, NODE_CONTAINER), WINDOW, X_COMPONENT)
              else old(retryMonitorObjectTypes)
    {
      hide Asks, WithBit;
      if Asks(config, NODE_CONTAINER) || Asks(config, X_COMPONENT) {
        session := session + [Attempt(Nodes, a.nodes)];
        if !a.nodes {
          retryMonitorObjectTypes := WithBit(retryMonitorObjectTypes, NODE_CONTAINER, NODE_CONTAINER);
          retryMonitorObjectTypes := WithBit(retryMonitorObjectTypes, WINDOW, X_COMPONENT);
        }
      }
    }

    method RegisterAbilities(config: Mask, a: Answers)
      modifies this`session, this`retryMonitorObjectTypes
      ensures session == old(session) + Tried(config, a, Abilities)
      ensures retryMonitorObjectTypes == if Fails(config, a, Abilities)
                                         then WithBit(old(retryMonitorObjectTypes), ABILITY, ABILITY)
                                         else old(retryMonitorObjectTypes)
    {
      hide Asks, WithBit;
      if Asks(config, ABILITY) {
        session := session + [Attempt(Abilities, a.abilities)];
        if !a.abilities {
          retryMonitorObjectTypes := WithBit(retryMonitorObjectTypes, ABILITY, ABILITY);
        }
      }
    }

    /** The end of enableLeakWatcher. */
    method EnableRegisters(config: Mask, a: Answers)
      modifies this
      ensures Value() == Next(old(Value()), Enable(config, a))
    {
      session, sessions := [], sessions + 1;
      ExecuteRegister(config, a);
    }

    /** The opening of the GC callback. */
    method GcCallbackRetries(a: Answers)
      modifies this
      ensures Value() == Next(old(Value()), GcCallback(a))
    {
      if currentAttempt <= ATTEMPT_COUNT && retryMonitorObjectTypes.Some? {
        ExecuteRegister(retryMonitorObjectTypes.value, a);
        currentAttempt := currentAttempt + 1;
      }
    }
  }

  // ----- runs -----

  function Run(steps: seq<Step>): State
    decreases |steps|
  {
    if steps == [] then Initial else Next(Run(steps[..|steps| - 1]), steps[|steps| - 1])
  }

  /** No kind is tried after it has succeeded, and the mask names only kinds that have only failed. */
  ghost predicate OnlyFailuresAgain(s: State) {
    && (forall i, j | 0 <= i < j < |s.session| && s.session[i].kind == s.session[j].kind :: !s.session[i].ok)
    && (s.retry.Some? ==> forall i | 0 <= i < |s.session| && Named(s.retry.value, s.session[i].kind) :: !s.session[i].ok)
  }

  lemma AttemptsOf(config: Mask, a: Answers)
    ensures forall i | 0 <= i < |Attempts(config, a)| ::
              Named(config, Attempts(config, a)[i].kind)
              && Attempts(config, a)[i].ok == Succeeds(a, Attempts(config, a)[i].kind)
    ensures forall i, j | 0 <= i < j < |Attempts(config, a)| ::
              Attempts(config, a)[i].kind != Attempts(config, a)[j].kind
  {
    hide Named;
  }

  lemma RegisterKeeps(s: State, config: Mask, a: Answers)
    requires OnlyFailuresAgain(s.(retry := Some(config)))
    ensures OnlyFailuresAgain(AfterRegister(s, config, a))
  {
    hide Named, RetryMask, Attempts;
    AttemptsOf(config, a);
    forall kind
      ensures RetryMask(config, a).Some? ==> (Named(RetryMask(config, a).value, kind) <==> Fails(config, a, kind))
    {
      RetryNamesFailed(config, a, kind);
    }
  }

  /** Over all the sessions of a process: executeRegister runs once for each, and ATTEMPT_COUNT times
      more at most; within each session a kind that was registered is never registered again, and the
      mask names only kinds that failed. In the first session that makes 1 + ATTEMPT_COUNT runs. */
  lemma {:induction false} RetriesAreBounded(steps: seq<Step>)
    ensures var s := Run(steps);
            && 1 <= s.currentAttempt <= ATTEMPT_COUNT + 1
            && s.runs <= s.sessions + s.currentAttempt - 1 <= s.sessions + ATTEMPT_COUNT
            && OnlyFailuresAgain(s)
    decreases |steps|
  {
    hide OnlyFailuresAgain, AfterRegister;
    if steps == [] {
      NothingTried();
    } else {
      var s, step := Run(steps[..|steps| - 1]), steps[|steps| - 1];
      RetriesAreBounded(steps[..|steps| - 1]);
      match step
      case Enable(config, a) =>
        NothingTriedYet(s, config);
        RegisterKeeps(s.(session := [], sessions := s.sessions + 1), config, a);
        RegisterCounts(s.(session := [], sessions := s.sessions + 1), config, a);
      case GcCallback(a) =>
        if s.currentAttempt <= ATTEMPT_COUNT && s.retry.Some? {
          assert s.(retry := Some(s.retry.value)) == s;
          RegisterKeeps(s, s.retry.value, a);
          RegisterCounts(s, s.retry.value, a);
          AttemptNumberAside(AfterRegister(s, s.retry.value, a), s.currentAttempt + 1);
        }
    }
  }

  lemma NothingTried()
    ensures OnlyFailuresAgain(Initial)
  {}

  lemma NothingTriedYet(s: State, config: Mask)
    ensures OnlyFailuresAgain(s.(session := [], sessions := s.sessions + 1).(retry := Some(config)))
  {}

  lemma RegisterCounts(s: State, config: Mask, a: Answers)
    ensures var t := AfterRegister(s, config, a);
            t.runs == s.runs + 1 && t.sessions == s.sessions && t.currentAttempt == s.currentAttempt
  {}

  lemma AttemptNumberAside(s: State, n: nat)
    ensures OnlyFailuresAgain(s.(currentAttempt := n)) <==> OnlyFailuresAgain(s)
  {}

  // ----- what fails is tried again -----

  /** How often a kind was tried. */
  function Tries(l: seq<Attempt>, kind: Kind): nat {
    if l == [] then 0 else Tries(l[..|l| - 1], kind) + if l[|l| - 1].kind == kind then 1 else 0
  }

  /** The last time it was tried, it failed; it succeeded. */
  function LastTry(l: seq<Attempt>, kind: Kind): Option<bool> {
    if l == [] then None
    else if l[|l| - 1].kind == kind then Some(l[|l| - 1].ok) else LastTry(l[..|l| - 1], kind)
  }

  lemma {:induction false} TriesOn(a: seq<Attempt>, b: seq<Attempt>, kind: Kind)
    ensures Tries(a + b, kind) == Tries(a, kind) + Tries(b, kind)
    ensures LastTry(a + b, kind) == if LastTry(b, kind).Some? then LastTry(b, kind) else LastTry(a, kind)
    decreases |b|
  {
    if b == [] {
      assert a + b == a;
    } else {
      assert (a + b)[..|a + b| - 1] == a + b[..|b| - 1];
      TriesOn(a, b[..|b| - 1], kind);
    }
  }

  lemma TriesOfTried(config: Mask, a: Answers, k: Kind, kind: Kind)
    ensures Tries(Tried(config, a, k), kind) == if k == kind && Named(config, kind) then 1 else 0
    ensures LastTry(Tried(config, a, k), kind) ==
            if k == kind && Named(config, kind) then Some(Succeeds(a, kind)) else None
  {
    hide Named, Succeeds;
  }

  /** One executeRegister tries each kind the mask names, once. */
  lemma TriesOfAttempts(config: Mask, a: Answers, kind: Kind)
    ensures Tries(Attempts(config, a), kind) == if Named(config, kind) then 1 else 0
    ensures LastTry(Attempts(config, a), kind) == if Named(config, kind) then Some(Succeeds(a, kind)) else None
  {
    hide Tried, Tries, LastTry;
    var c, w := Tried(config, a, CustomComponents), Tried(config, a, Windows);
    var n, b := Tried(config, a, Nodes), Tried(config, a, Abilities);
    forall k {
      TriesOfTried(config, a, k, kind);
    }
    TriesOn(c, w, kind);
    TriesOn(c + w, n, kind);
    TriesOn(c + w + n, b, kind);
  }

  /** The mask names exactly the kinds whose last attempt in the session failed. */
  ghost predicate RetryExact(s: State) {
    forall kind :: LastTry(s.session, kind) == Some(false) <==> s.retry.Some? && Named(s.retry.value, kind)
  }

  lemma RegisterExact(s: State, config: Mask, a: Answers)
    requires forall kind | LastTry(s.session, kind) == Some(false) :: Named(config, kind)
    ensures RetryExact(AfterRegister(s, config, a))
    ensures forall kind :: Tries(AfterRegister(s, config, a).session, kind)
                           == Tries(s.session, kind) + if Named(config, kind) then 1 else 0
    ensures forall kind :: LastTry(AfterRegister(s, config, a).session, kind)
                           == if Named(config, kind) then Some(Succeeds(a, kind)) else LastTry(s.session, kind)
  {
    hide Named, RetryMask, Attempts, Tries, LastTry;
    forall kind
      ensures LastTry(AfterRegister(s, config, a).session, kind)
              == if Named(config, kind) then Some(Succeeds(a, kind)) else LastTry(s.session, kind)
      ensures Tries(AfterRegister(s, config, a).session, kind)
              == Tries(s.session, kind) + if Named(config, kind) then 1 else 0
      ensures RetryMask(config, a).None? ==> !Fails(config, a, kind)
      ensures RetryMask(config, a).Some? ==> (Named(RetryMask(config, a).value, kind) <==> Fails(config, a, kind))
    {
      TriesOfAttempts(config, a, kind);
      TriesOn(s.session, Attempts(config, a), kind);
      RetryNamesFailed(config, a, kind);
    }
  }

  lemma {:induction false} RetryStaysExact(steps: seq<Step>)
    ensures RetryExact(Run(steps))
    decreases |steps|
  {
    if steps != [] {
      var s := Run(steps[..|steps| - 1]);
      RetryStaysExact(steps[..|steps| - 1]);
      match steps[|steps| - 1]
      case Enable(config, a) => RegisterExact(s.(session := [], sessions := s.sessions + 1), config, a);
      case GcCallback(a) =>
        if s.currentAttempt <= ATTEMPT_COUNT && s.retry.Some? {
          RegisterExact(s, s.retry.value, a);
        }
    }
  }

  /** In every run: enabling tries each kind asked for, once. After that, while attempts are left, a GC callback
      tries each kind whose last attempt in the session failed, once, and no other; it takes one attempt if
      there is such a kind. Later ones try nothing. */
  lemma FailedIsTriedAgain(steps: seq<Step>, config: Mask, a: Answers, kind: Kind)
    ensures var t := Next(Run(steps), Enable(config, a));
            && Tries(t.session, kind) == (if Named(config, kind) then 1 else 0)
            && LastTry(t.session, kind) == if Named(config, kind) then Some(Succeeds(a, kind)) else None
    ensures var s, t := Run(steps), Next(Run(steps), GcCallback(a));
            var again := s.currentAttempt <= 2 && LastTry(s.session, kind) == Some(false);
            && Tries(t.session, kind) == Tries(s.session, kind) + (if again then 1 else 0)
            && LastTry(t.session, kind) == (if again then Some(Succeeds(a, kind)) else LastTry(s.session, kind))
            && (again ==> t.currentAttempt == s.currentAttempt + 1)
  {
    hide Named, Succeeds, AfterRegister, Tries, LastTry;
    var s := Run(steps);
    RetryStaysExact(steps);
    NothingTriedBefore(kind);
    forall k {
      NothingTriedBefore(k);
    }
    RegisterExact(s.(session := [], sessions := s.sessions + 1), config, a);
    if s.retry.Some? {
      RegisterExact(s, s.retry.value, a);
      RegisterCounts(s, s.retry.value, a);
    }
  }

  lemma NothingTriedBefore(kind: Kind)
    ensures Tries([], kind) == 0 && LastTry([], kind) == None
  {}

  /** Enabling and the GC callbacks after it, with their answers. */
  function Session(config: Mask, answers: seq<Answers>): seq<Step>
    requires answers != []
    decreases |answers|
  {
    var last := |answers| - 1;
    if last == 0 then [Enable(config, answers[0])] else Session(config, answers[..last]) + [GcCallback(answers[last])]
  }

  /** The first session: a kind asked for that fails each time is tried once and then again in each of the
      first ATTEMPT_COUNT callbacks. */
  lemma {:induction false} FailingKindIsTried(config: Mask, answers: seq<Answers>, kind: Kind)
    requires answers != [] && Named(config, kind)
    requires forall i | 0 <= i < |answers| :: !Succeeds(answers[i], kind)
    ensures var s, n := Run(Session(config, answers)), |answers| - 1;
            && Tries(s.session, kind) == 1 + (if n < 2 then n else 2)
            && LastTry(s.session, kind) == Some(false)
            && s.currentAttempt == 1 + (if n < 2 then n else 2)
    decreases |answers|
  {
    hide Named, Succeeds, Next, Tries, LastTry;
    var last := |answers| - 1;
    var steps := Session(config, answers);
    if last == 0 {
      assert steps[..0] == [];
      FailedIsTriedAgain([], config, answers[0], kind);
      EnableTakesNoAttempt([], config, answers[0]);
    } else {
      assert steps[..|steps| - 1] == Session(config, answers[..last]);
      FailingKindIsTried(config, answers[..last], kind);
      FailedIsTriedAgain(steps[..|steps| - 1], config, answers[last], kind);
      NoAttemptsLeft(Run(steps[..|steps| - 1]), answers[last]);
    }
  }

  lemma EnableTakesNoAttempt(steps: seq<Step>, config: Mask, a: Answers)
    ensures Next(Run(steps), Enable(config, a)).currentAttempt == Run(steps).currentAttempt
  {}

  lemma NoAttemptsLeft(s: State, a: Answers)
    ensures s.currentAttempt > 2 ==> Next(s, GcCallback(a)) == s
  {}

  /** One that then succeeds, in one of the first ATTEMPT_COUNT callbacks, is registered, and not tried again. */
  lemma {:induction false} SucceedingKindIsRegistered(config: Mask, answers: seq<Answers>, m: nat, kind: Kind)
    requires m < |answers| && m <= 2 && Named(config, kind)
    requires Succeeds(answers[m], kind) && forall i | 0 <= i < m :: !Succeeds(answers[i], kind)
    ensures var s := Run(Session(config, answers));
            Tries(s.session, kind) == m + 1 && LastTry(s.session, kind) == Some(true)
    decreases |answers|
  {
    hide Named, Succeeds, Next, Tries, LastTry;
    var last := |answers| - 1;
    var steps := Session(config, answers);
    if last == 0 {
      assert steps[..0] == [];
      FailedIsTriedAgain([], config, answers[0], kind);
    } else {
      assert steps[..|steps| - 1] == Session(config, answers[..last]);
      if m < last {
        SucceedingKindIsRegistered(config, answers[..last], m, kind);
      } else {
        FailingKindIsTried(config, answers[..last], kind);
      }
      FailedIsTriedAgain(steps[..|steps| - 1], config, answers[last], kind);
    }
  }
}
