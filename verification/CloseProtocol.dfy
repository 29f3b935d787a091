/**
 Lazy runtime construction against application close.

 Any number of threads run `ensure_native_blocking`, `subscribe_events` and
 `close_window` at once.  Every atomic load, lock acquisition, critical action
 and unlock is a step of its own wherever another thread could observe the
 difference.  A thread may panic while it constructs a runtime or subscribes,
 which poisons the lock it holds.  Between any two steps the activity gate may go
 through any critical sections of its own.
 */
module CloseProtocol {
  import opened Wrappers
  import ActivityGate

  type Thread = nat
  type Runtime = nat

  /** Where a thread stands in its call. */
  datatype Pc =
    // ensure_native_blocking
    | EnsureStart                        // about to load `closing`
    | EnsureLock                         // about to lock `native`
    | EnsureLook                         // holds `native`, about to inspect it
    | EnsureBuild                        // holds `native`, constructing a runtime
    | EnsureRecheck(built: Runtime)      // holds `native`, about to load `closing` again
    | EnsureAbandon(built: Runtime)      // holds `native`, about to shut the new runtime down
    | EnsureInstall(built: Runtime)      // holds `native`, about to store the new runtime
    | EnsureReturned(runtime: Option<Runtime>)
    // close_window
    | CloseStart                         // about to swap `closing`
    | CloseGate                          // first closer, about to close the activity gate
    | CloseRead                          // about to lock `native` and clone it
    | CloseDispatch(target: Runtime)     // about to dispatch app.shutdown
    | CloseHubLock                       // no runtime: about to lock the event hub
    | CloseHub                           // holds the hub, about to close it
    | CloseDestroy                       // shutdown_native returned, about to destroy the window
    | CloseReturned
    // subscribe_events
    | SubscribeStart                     // about to load `closing`
    | SubscribeLock                      // about to lock the hub
    | SubscribeRecheck                   // holds the hub, about to load `closing` again
    | Subscribe                          // holds the hub, about to subscribe
    | SubscribeReturned(ok: bool)

  /** The `closing` flag and how far the accepted closer has come. */
  datatype Close = Close(
    closing: bool,
    gateClosing: bool,               // the activity gate has been told to close
    accepted: Option<Thread>,        // whose swap of `closing` found it clear
    read: bool,                      // the accepted closer has read `native`
    returned: bool,                  // shutdown_native has returned
    destroyed: bool)                 // the window is destroyed

  /** The `native` mutex, its content, and the runtime that its holder has built but not stored. */
  datatype Native = Native(
    owner: Option<Thread>,
    poisoned: bool,
    installed: Option<Runtime>,
    pending: Option<Runtime>)

  /** The event hub behind its mutex. */
  datatype Hub = Hub(owner: Option<Thread>, poisoned: bool, closed: bool, channel: Option<Thread>)

  /** Every runtime ever built and every runtime shut down. */
  datatype Ledger = Ledger(nextRuntime: Runtime, built: set<Runtime>, shutDown: set<Runtime>)

  datatype Shared = Shared(close: Close, native: Native, hub: Hub, ledger: Ledger, world: ActivityGate.World)

  datatype State = State(shared: Shared, pcs: map<Thread, Pc>)

  /** How the environment resolves a construction or a subscription. */
  datatype Fate = Succeeds | Fails | Panics

  const UNUSED := Shared(Close(false, false, None, false, false, false),
                         Native(None, false, None, None),
                         Hub(None, false, false, None),
                         Ledger(0, {}, {}),
                         ActivityGate.START)

  predicate Starting(pc: Pc) { pc.EnsureStart? || pc.CloseStart? || pc.SubscribeStart? }

  predicate Returned(pc: Pc) { pc.EnsureReturned? || pc.CloseReturned? || pc.SubscribeReturned? }

  /** Any finite set of calls, none of them started. */
  predicate Initial(s: State)
  {
    s.shared == UNUSED && forall t :: t in s.pcs ==> Starting(s.pcs[t])
  }

  // ----- Steps -----

  /** A thread is blocked only by a lock that another thread holds. */
  predicate CanMove(h: Shared, pc: Pc)
  {
    match pc
    case EnsureLock | CloseRead => h.native.owner.None?
    case SubscribeLock | CloseHubLock => h.hub.owner.None?
    case EnsureReturned(_) | CloseReturned | SubscribeReturned(_) => false
    case _ => true
  }

  /** A step of `ensure_native_blocking`: the new shared state and the thread's next place. */
  function EnsureMove(h: Shared, t: Thread, pc: Pc, fate: Fate): (Shared, Pc)
  {
    match pc
    case EnsureStart =>
      (h, if h.close.closing then EnsureReturned(None) else EnsureLock)
    case EnsureLock =>
      // A poisoned lock makes the caller panic without taking it.
      if h.native.poisoned then (h, EnsureReturned(None))
      else (h.(native := h.native.(owner := Some(t))), EnsureLook)
    case EnsureLook =>
      if h.native.installed.Some?
      then (h.(native := h.native.(owner := None)), EnsureReturned(h.native.installed))
      else (h, EnsureBuild)
    case EnsureBuild =>
      if fate.Succeeds? then
        var r := h.ledger.nextRuntime;
        (h.(native := h.native.(pending := Some(r)),
            ledger := h.ledger.(nextRuntime := r + 1, built := h.ledger.built + {r})),
         EnsureRecheck(r))
      else (h.(native := h.native.(owner := None, poisoned := h.native.poisoned || fate.Panics?)), EnsureReturned(None))
    case EnsureRecheck(r) =>
      (h, if h.close.closing then EnsureAbandon(r) else EnsureInstall(r))
    case EnsureAbandon(r) =>
      (h.(native := h.native.(owner := None, pending := None),
          ledger := h.ledger.(shutDown := h.ledger.shutDown + {r})),
       EnsureReturned(None))
    case EnsureInstall(r) =>
      (h.(native := h.native.(owner := None, installed := Some(r), pending := None)), EnsureReturned(Some(r)))
    case _ => (h, pc)
  }

  /** A step of `close_window`, from acceptance through `shutdown_native` to destruction. */
  function CloseMove(h: Shared, t: Thread, pc: Pc): (Shared, Pc)
  {
    match pc
    case CloseStart =>
      if h.close.closing then (h, CloseReturned)
      else (h.(close := h.close.(closing := true, accepted := Some(t))), CloseGate)
    case CloseGate =>
      (h.(close := h.close.(gateClosing := true),
          world := ActivityGate.Next(h.world, ActivityGate.BeginShutdown)),
       CloseRead)
    case CloseRead =>
      // The guard lives only for the clone; a poisoned lock reads as no runtime.
      (h.(close := h.close.(read := true)),
       if !h.native.poisoned && h.native.installed.Some? then CloseDispatch(h.native.installed.value) else CloseHubLock)
    case CloseDispatch(r) =>
      (h.(close := h.close.(returned := true), ledger := h.ledger.(shutDown := h.ledger.shutDown + {r})), CloseDestroy)
    case CloseHubLock =>
      if h.hub.poisoned then (h.(close := h.close.(returned := true)), CloseDestroy)
      else (h.(hub := h.hub.(owner := Some(t))), CloseHub)
    case CloseHub =>
      (h.(close := h.close.(returned := true), hub := h.hub.(closed := true, owner := None)), CloseDestroy)
    case CloseDestroy =>
      (h.(close := h.close.(destroyed := true)), CloseReturned)
    case _ => (h, pc)
  }

  /** A step of `subscribe_events`. */
  function SubscribeMove(h: Shared, t: Thread, pc: Pc, fate: Fate): (Shared, Pc)
  {
    match pc
    case SubscribeStart =>
      (h, if h.close.closing then SubscribeReturned(false) else SubscribeLock)
    case SubscribeLock =>
      if h.hub.poisoned then (h, SubscribeReturned(false))
      else (h.(hub := h.hub.(owner := Some(t))), SubscribeRecheck)
    case SubscribeRecheck =>
      if h.close.closing then (h.(hub := h.hub.(owner := None)), SubscribeReturned(false)) else (h, Subscribe)
    case Subscribe =>
      // The hub refuses a second subscriber; its own closed flag is not consulted here.
      if fate.Succeeds? && h.hub.channel.None?
      then (h.(hub := h.hub.(owner := None, channel := Some(t))), SubscribeReturned(true))
      else (h.(hub := h.hub.(owner := None, poisoned := h.hub.poisoned || fate.Panics?)), SubscribeReturned(false))
    case _ => (h, pc)
  }

  predicate EnsurePc(pc: Pc)
  {
    pc.EnsureStart? || pc.EnsureLock? || pc.EnsureLook? || pc.EnsureBuild? || pc.EnsureRecheck?
    || pc.EnsureAbandon? || pc.EnsureInstall? || pc.EnsureReturned?
  }

  predicate ClosePc(pc: Pc) { pc.CloseStart? || Closer(pc) || pc.CloseReturned? }

  predicate SubscribePc(pc: Pc)
  {
    pc.SubscribeStart? || pc.SubscribeLock? || pc.SubscribeRecheck? || pc.Subscribe? || pc.SubscribeReturned?
  }

  function Move(h: Shared, t: Thread, pc: Pc, fate: Fate): (Shared, Pc)
  {
    if EnsurePc(pc) then EnsureMove(h, t, pc, fate)
    else if ClosePc(pc) then CloseMove(h, t, pc)
    else SubscribeMove(h, t, pc, fate)
  }

  predicate Enabled(s: State, t: Thread) { t in s.pcs && CanMove(s.shared, s.pcs[t]) }

  /** Which thread moves, how its step turns out, and what the activity gate does before it. */
  datatype Choice = Choice(thread: Thread, fate: Fate, activity: seq<ActivityGate.Step>)

  function AfterActivity(h: Shared, activity: seq<ActivityGate.Step>): Shared
  {
    h.(world := ActivityGate.Run(h.world, activity))
  }

  function Next(s: State, c: Choice): State
    requires c.thread in s.pcs
  {
    var (h, pc) := Move(AfterActivity(s.shared, c.activity), c.thread, s.pcs[c.thread], c.fate);
    State(h, s.pcs[c.thread := pc])
  }

  /** A finite interleaving: a state for every point, each step enabled. */
  ghost predicate Behaviour(states: seq<State>, choices: seq<Choice>)
  {
    && |states| == |choices| + 1
    && Initial(states[0])
    && forall i :: 0 <= i < |choices| ==>
         && Enabled(states[i], choices[i].thread)
         && ActivityGate.Legal(states[i].shared.world, choices[i].activity)
         && states[i + 1] == Next(states[i], choices[i])
  }

  // ----- The invariant, one thread at a time -----

  predicate HoldsNative(pc: Pc) { pc.EnsureLook? || pc.EnsureBuild? || Carries(pc) }

  predicate HoldsHub(pc: Pc) { pc.SubscribeRecheck? || pc.Subscribe? || pc.CloseHub? }

  /** The thread has built a runtime that it has neither installed nor shut down. */
  predicate Carries(pc: Pc) { pc.EnsureRecheck? || pc.EnsureAbandon? || pc.EnsureInstall? }

  /** The close sequence after acceptance, up to the destruction of the window. */
  predicate Closer(pc: Pc)
  {
    pc.CloseGate? || pc.CloseRead? || pc.CloseDispatch? || pc.CloseHubLock? || pc.CloseHub? || pc.CloseDestroy?
  }

  predicate ShutdownDone(pc: Pc) { pc.CloseDestroy? || pc.CloseReturned? }

  /** What a thread relies on about `native`: its lock, and no install once the closer has read. */
  predicate NativeOk(n: Native, c: Close, t: Thread, pc: Pc)
  {
    && (n.owner == Some(t) <==> HoldsNative(pc))
    && (HoldsNative(pc) ==> !n.poisoned && (n.pending.Some? <==> Carries(pc)))
    && (Carries(pc) ==> n.pending == Some(pc.built))
    && (pc.EnsureBuild? || Carries(pc) ==> n.installed.None?)
    && (pc.EnsureAbandon? ==> c.closing)
    && (pc.EnsureInstall? ==> !c.read)
  }

  /** What a thread relies on about the hub: its lock, and that it subscribes only to an open hub. */
  predicate HubOk(b: Hub, t: Thread, pc: Pc)
  {
    (b.owner == Some(t) <==> HoldsHub(pc)) && (pc.Subscribe? ==> !b.closed)
  }

  /** How the recorded progress matches the place of the accepted closer. */
  predicate CloserOk(c: Close, installed: Option<Runtime>, t: Thread, pc: Pc)
  {
    && (Closer(pc) ==> c.accepted == Some(t))
    && (pc.CloseReturned? ==> c.closing)
    && (c.accepted == Some(t) ==>
          && (Closer(pc) || pc.CloseReturned?)
          && (c.gateClosing <==> !pc.CloseGate?)
          && (c.read <==> !pc.CloseGate? && !pc.CloseRead?)
          && (c.returned <==> ShutdownDone(pc))
          && (c.destroyed <==> pc.CloseReturned?))
    && (pc.CloseDispatch? ==> installed == Some(pc.target))
    && (pc.CloseHubLock? || pc.CloseHub? ==> installed.None?)
  }

  predicate ThreadOk(h: Shared, t: Thread, pc: Pc)
  {
    NativeOk(h.native, h.close, t, pc) && HubOk(h.hub, t, pc) && CloserOk(h.close, h.native.installed, t, pc)
  }

  predicate CloseFieldsOk(c: Close, b: Hub)
  {
    && (c.closing <==> c.accepted.Some?)
    && (c.accepted.None? ==> !c.gateClosing && !c.read && !c.returned && !c.destroyed && !b.closed)
    && (c.destroyed ==> c.returned) && (c.returned ==> c.read) && (c.read ==> c.gateClosing)
  }

  /** Every built runtime is shut down, installed, or in the hands of the lock holder. */
  predicate RuntimesOk(n: Native, l: Ledger, returned: bool)
  {
    && (forall r :: r in l.built ==> r < l.nextRuntime)
    && (n.installed.Some? ==> n.installed.value in l.built && !n.poisoned)
    && (n.pending.Some? ==> n.pending.value in l.built && n.owner.Some?)
    && (forall r :: r in l.built && r !in l.shutDown ==> n.installed == Some(r) || n.pending == Some(r))
    && (returned && n.installed.Some? ==> n.installed.value in l.shutDown)
  }

  predicate SharedOk(h: Shared)
  {
    CloseFieldsOk(h.close, h.hub) && RuntimesOk(h.native, h.ledger, h.close.returned)
  }

  predicate OwnersExist(s: State)
  {
    && (s.shared.native.owner.Some? ==> s.shared.native.owner.value in s.pcs)
    && (s.shared.hub.owner.Some? ==> s.shared.hub.owner.value in s.pcs)
    && (s.shared.close.accepted.Some? ==> s.shared.close.accepted.value in s.pcs)
  }

  predicate Inv(s: State)
  {
    SharedOk(s.shared) && OwnersExist(s) && forall t :: t in s.pcs ==> ThreadOk(s.shared, t, s.pcs[t])
  }

  lemma InitialInv(s: State)
    requires Initial(s)
    ensures Inv(s)
  {
  }

  lemma EnsureMoveOk(h: Shared, t: Thread, pc: Pc, fate: Fate)
    requires SharedOk(h) && ThreadOk(h, t, pc) && CanMove(h, pc) && EnsurePc(pc)
    ensures SharedOk(EnsureMove(h, t, pc, fate).0)
    ensures ThreadOk(EnsureMove(h, t, pc, fate).0, t, EnsureMove(h, t, pc, fate).1)
  {
  }

  lemma EnsureMoveDoesNotInterfere(h: Shared, t: Thread, pc: Pc, fate: Fate, u: Thread, other: Pc)
    requires SharedOk(h) && ThreadOk(h, t, pc) && CanMove(h, pc) && EnsurePc(pc)
    requires u != t && ThreadOk(h, u, other)
    ensures ThreadOk(EnsureMove(h, t, pc, fate).0, u, other)
  {
  }

  lemma CloseMoveOk(h: Shared, t: Thread, pc: Pc)
    requires SharedOk(h) && ThreadOk(h, t, pc) && CanMove(h, pc) && ClosePc(pc)
    ensures SharedOk(CloseMove(h, t, pc).0)
    ensures ThreadOk(CloseMove(h, t, pc).0, t, CloseMove(h, t, pc).1)
  {
  }

  lemma CloseMoveDoesNotInterfere(h: Shared, t: Thread, pc: Pc, u: Thread, other: Pc)
    requires SharedOk(h) && ThreadOk(h, t, pc) && CanMove(h, pc) && ClosePc(pc)
    requires u != t && ThreadOk(h, u, other)
    ensures ThreadOk(CloseMove(h, t, pc).0, u, other)
  {
  }

  lemma SubscribeMoveOk(h: Shared, t: Thread, pc: Pc, fate: Fate)
    requires SharedOk(h) && ThreadOk(h, t, pc) && CanMove(h, pc) && SubscribePc(pc)
    ensures SharedOk(SubscribeMove(h, t, pc, fate).0)
    ensures ThreadOk(SubscribeMove(h, t, pc, fate).0, t, SubscribeMove(h, t, pc, fate).1)
  {
  }

  lemma SubscribeMoveDoesNotInterfere(h: Shared, t: Thread, pc: Pc, fate: Fate, u: Thread, other: Pc)
    requires SharedOk(h) && ThreadOk(h, t, pc) && CanMove(h, pc) && SubscribePc(pc)
    requires u != t && ThreadOk(h, u, other)
    ensures ThreadOk(SubscribeMove(h, t, pc, fate).0, u, other)
  {
  }

  lemma NextInv(s: State, c: Choice)
    requires Inv(s) && Enabled(s, c.thread)
    ensures Inv(Next(s, c))
  {
    var t, fate := c.thread, c.fate;
    var h, pc, s' := AfterActivity(s.shared, c.activity), s.pcs[t], Next(s, c);
    if EnsurePc(pc) {
      EnsureMoveOk(h, t, pc, fate);
    } else if ClosePc(pc) {
      CloseMoveOk(h, t, pc);
    } else {
      SubscribeMoveOk(h, t, pc, fate);
    }
    forall u | u in s'.pcs
      ensures ThreadOk(s'.shared, u, s'.pcs[u])
    {
      if u != t {
        if EnsurePc(pc) {
          EnsureMoveDoesNotInterfere(h, t, pc, fate, u, s.pcs[u]);
        } else if ClosePc(pc) {
          CloseMoveDoesNotInterfere(h, t, pc, u, s.pcs[u]);
        } else {
          SubscribeMoveDoesNotInterfere(h, t, pc, fate, u, s.pcs[u]);
        }
      }
    }
    MoveOwners(h, t, pc, fate);
  }

  lemma MoveOwners(h: Shared, t: Thread, pc: Pc, fate: Fate)
    ensures
      var h' := Move(h, t, pc, fate).0;
      && h'.native.owner in {h.native.owner, None, Some(t)}
      && h'.hub.owner in {h.hub.owner, None, Some(t)}
      && h'.close.accepted in {h.close.accepted, None, Some(t)}
  {
  }

  // ----- Main results over every interleaving -----

  lemma {:induction false} BehaviourInv(states: seq<State>, choices: seq<Choice>, i: nat)
    requires Behaviour(states, choices) && i < |states|
    ensures Inv(states[i])
  {
    if i == 0 {
      InitialInv(states[0]);
    } else {
      BehaviourInv(states, choices, i - 1);
      NextInv(states[i - 1], choices[i - 1]);
    }
  }

  lemma InvShutsDownAll(s: State)
    requires Inv(s) && s.shared.close.returned
    requires forall t :: t in s.pcs ==> !Carries(s.pcs[t])
    ensures s.shared.ledger.built <= s.shared.ledger.shutDown
  {
  }

  /** After shutdown_native has returned, whatever was built is shut down, or still in the hands of its builder. */
  lemma EveryRuntimeIsShutDown(states: seq<State>, choices: seq<Choice>, i: nat)
    requires Behaviour(states, choices) && i < |states|
    requires states[i].shared.close.returned
    requires forall t :: t in states[i].pcs ==> !Carries(states[i].pcs[t])
    ensures states[i].shared.ledger.built <= states[i].shared.ledger.shutDown
  {
    BehaviourInv(states, choices, i);
    InvShutsDownAll(states[i]);
  }

  /** What every step from `i` to `j` keeps holds at `j` if it holds at `i`. */
  lemma {:induction false} Stays<T>(xs: seq<T>, p: T -> bool, i: nat, j: nat)
    requires i <= j < |xs| && p(xs[i]) && forall k :: i <= k < j && p(xs[k]) ==> p(xs[k + 1])
    ensures p(xs[j])
    decreases j - i
  {
    if i < j { Stays(xs, p, i, j - 1); }
  }

  /** What is settled in `h` is the same in `v`. */
  predicate Settled(h: Shared, v: Shared)
  {
    && (h.native.installed.Some? ==> v.native.installed == h.native.installed)
    && (h.close.accepted.Some? ==> v.close.accepted == h.close.accepted)
    && (h.hub.closed ==> v.hub.closed && v.hub.channel == h.hub.channel)
    && (h.close.closing ==> v.close.closing)
  }

  lemma MoveKeepsMilestones(h: Shared, t: Thread, pc: Pc, fate: Fate)
    requires SharedOk(h) && ThreadOk(h, t, pc) && CanMove(h, pc)
    ensures Settled(h, Move(h, t, pc, fate).0)
  {
  }

  lemma StepKeepsMilestones(states: seq<State>, choices: seq<Choice>, i: nat)
    requires Behaviour(states, choices) && i < |choices|
    ensures Settled(states[i].shared, states[i + 1].shared)
  {
    BehaviourInv(states, choices, i);
    var c := choices[i];
    MoveKeepsMilestones(AfterActivity(states[i].shared, c.activity), c.thread, states[i].pcs[c.thread], c.fate);
  }

  lemma SettledChains(a: Shared, b: Shared, c: Shared)
    requires Settled(a, b) && Settled(b, c)
    ensures Settled(a, c)
  {
  }

  /**
   Installed runtime, accepted closer and closed hub are each settled once:
   at most one runtime is ever installed, at most one close is ever accepted,
   and no channel is subscribed after the hub was closed.
   */
  lemma Milestones(states: seq<State>, choices: seq<Choice>, i: nat, j: nat)
    requires Behaviour(states, choices) && i <= j < |states|
    ensures Settled(states[i].shared, states[j].shared)
  {
    var start := states[i].shared;
    var p := (s: State) => Settled(start, s.shared);
    forall k | i <= k < j && p(states[k])
      ensures p(states[k + 1])
    {
      StepKeepsMilestones(states, choices, k);
      SettledChains(start, states[k].shared, states[k + 1].shared);
    }
    Stays(states, p, i, j);
  }

  /** The window is destroyed only after the activity gate closed and shutdown_native returned. */
  lemma DestroyComesLast(states: seq<State>, choices: seq<Choice>, i: nat)
    requires Behaviour(states, choices) && i < |states| && states[i].shared.close.destroyed
    ensures states[i].shared.close.returned && states[i].shared.close.gateClosing && states[i].shared.close.closing
    ensures states[i].shared.world.gate.Shut()
    ensures forall t :: t in states[i].pcs ==> !Closer(states[i].pcs[t])
  {
    BehaviourInv(states, choices, i);
    GateInv(states, choices, i);
    var s := states[i];
    forall t | t in s.pcs
      ensures !Closer(s.pcs[t])
    {
      assert ThreadOk(s.shared, t, s.pcs[t]);
    }
  }

  // ----- What the calls answer -----

  /** A runtime that was handed out is the installed one; a subscription that succeeded is the hub's channel. */
  predicate AnswerOk(h: Shared, t: Thread, pc: Pc)
  {
    && (pc.EnsureReturned? && pc.runtime.Some? ==> pc.runtime == h.native.installed)
    && (h.hub.channel == Some(t) <==> pc == SubscribeReturned(true))
  }

  lemma MoveAnswers(h: Shared, t: Thread, pc: Pc, fate: Fate)
    requires CanMove(h, pc)
    ensures AnswerOk(h, t, pc) ==> AnswerOk(Move(h, t, pc, fate).0, t, Move(h, t, pc, fate).1)
    ensures h.hub.channel.Some? ==> Move(h, t, pc, fate).0.hub.channel == h.hub.channel
  {
  }

  lemma NextAnswers(s: State, c: Choice, u: Thread)
    requires Inv(s) && Enabled(s, c.thread) && u in s.pcs && AnswerOk(s.shared, u, s.pcs[u])
    ensures AnswerOk(Next(s, c).shared, u, Next(s, c).pcs[u])
  {
    var h, t, pc := AfterActivity(s.shared, c.activity), c.thread, s.pcs[c.thread];
    MoveAnswers(h, t, pc, c.fate);
    MoveKeepsMilestones(h, t, pc, c.fate);
  }

  predicate AnsweredAt(s: State, t: Thread) { t in s.pcs && AnswerOk(s.shared, t, s.pcs[t]) }

  lemma StepAnswers(states: seq<State>, choices: seq<Choice>, i: nat, t: Thread)
    requires Behaviour(states, choices) && i < |choices| && AnsweredAt(states[i], t)
    ensures AnsweredAt(states[i + 1], t)
  {
    BehaviourInv(states, choices, i);
    NextAnswers(states[i], choices[i], t);
  }

  /** In every run, whoever is answered with a runtime has the one installed runtime, and likewise for the channel. */
  lemma AnswersAreGenuine(states: seq<State>, choices: seq<Choice>, i: nat, t: Thread)
    requires Behaviour(states, choices) && i < |states| && t in states[0].pcs
    ensures t in states[i].pcs && AnswerOk(states[i].shared, t, states[i].pcs[t])
  {
    var p := (s: State) => AnsweredAt(s, t);
    forall k | 0 <= k < i && p(states[k])
      ensures p(states[k + 1])
    {
      StepAnswers(states, choices, k, t);
    }
    Stays(states, p, 0, i);
  }

  /** Without failures a call is turned away only because of a close, or because another thread has the channel. */
  predicate ServedOk(h: Shared, pc: Pc)
  {
    && (pc == EnsureReturned(None) ==> h.close.closing)
    && (pc == SubscribeReturned(false) ==> h.close.closing || h.hub.channel.Some?)
  }

  predicate Unpoisoned(h: Shared) { !h.native.poisoned && !h.hub.poisoned }

  lemma MoveServes(h: Shared, t: Thread, pc: Pc)
    requires SharedOk(h) && ThreadOk(h, t, pc) && CanMove(h, pc) && Unpoisoned(h)
    ensures Unpoisoned(Move(h, t, pc, Succeeds).0)
    ensures ServedOk(Move(h, t, pc, Succeeds).0, Move(h, t, pc, Succeeds).1)
  {
  }

  lemma NextServes(s: State, c: Choice, u: Thread)
    requires Inv(s) && Enabled(s, c.thread) && c.fate.Succeeds? && Unpoisoned(s.shared)
    requires u in s.pcs && ServedOk(s.shared, s.pcs[u])
    ensures Unpoisoned(Next(s, c).shared) && ServedOk(Next(s, c).shared, Next(s, c).pcs[u])
  {
    var h, t, pc := AfterActivity(s.shared, c.activity), c.thread, s.pcs[c.thread];
    MoveServes(h, t, pc);
    MoveAnswers(h, t, pc, c.fate);
    MoveKeepsMilestones(h, t, pc, c.fate);
  }

  predicate ServedAt(s: State, t: Thread) { t in s.pcs && Unpoisoned(s.shared) && ServedOk(s.shared, s.pcs[t]) }

  lemma StepServes(states: seq<State>, choices: seq<Choice>, i: nat, t: Thread)
    requires Behaviour(states, choices) && i < |choices| && ServedAt(states[i], t) && choices[i].fate.Succeeds?
    ensures ServedAt(states[i + 1], t)
  {
    BehaviourInv(states, choices, i);
    NextServes(states[i], choices[i], t);
  }

  /** If no construction or subscription has failed so far, every call was served unless a close was accepted. */
  lemma CallsAreServed(states: seq<State>, choices: seq<Choice>, i: nat, t: Thread)
    requires Behaviour(states, choices) && i < |states| && t in states[0].pcs
    requires forall k :: 0 <= k < i ==> choices[k].fate.Succeeds?
    ensures t in states[i].pcs && Unpoisoned(states[i].shared) && ServedOk(states[i].shared, states[i].pcs[t])
  {
    var p := (s: State) => ServedAt(s, t);
    forall k | 0 <= k < i && p(states[k])
      ensures p(states[k + 1])
    {
      StepServes(states, choices, k, t);
    }
    Stays(states, p, 0, i);
  }

  /** Not begun yet, or turned away. */
  predicate Refused(pc: Pc) { Starting(pc) || pc == EnsureReturned(None) || pc == SubscribeReturned(false) || pc.CloseReturned? }

  lemma MoveRefuses(h: Shared, t: Thread, pc: Pc, fate: Fate)
    requires h.close.closing && Refused(pc)
    ensures Refused(Move(h, t, pc, fate).1)
  {
  }

  lemma NextRefuses(s: State, c: Choice, u: Thread)
    requires Inv(s) && Enabled(s, c.thread) && u in s.pcs && s.shared.close.closing && Refused(s.pcs[u])
    ensures Next(s, c).shared.close.closing && Refused(Next(s, c).pcs[u])
  {
    var h, t, pc := AfterActivity(s.shared, c.activity), c.thread, s.pcs[c.thread];
    MoveKeepsMilestones(h, t, pc, c.fate);
    if u == t { MoveRefuses(h, t, pc, c.fate); }
  }

  predicate RefusedAt(s: State, t: Thread) { t in s.pcs && s.shared.close.closing && Refused(s.pcs[t]) }

  lemma StepRefuses(states: seq<State>, choices: seq<Choice>, i: nat, t: Thread)
    requires Behaviour(states, choices) && i < |choices| && RefusedAt(states[i], t)
    ensures RefusedAt(states[i + 1], t)
  {
    BehaviourInv(states, choices, i);
    NextRefuses(states[i], choices[i], t);
  }

  /** A call that begins after a close was accepted is turned away: no runtime, no channel, no second shutdown. */
  lemma LateCallsAreRefused(states: seq<State>, choices: seq<Choice>, i: nat, j: nat, t: Thread)
    requires Behaviour(states, choices) && i <= j < |states| && t in states[i].pcs
    requires states[i].shared.close.closing && Starting(states[i].pcs[t])
    ensures t in states[j].pcs && states[j].shared.close.closing && Refused(states[j].pcs[t])
  {
    var p := (s: State) => RefusedAt(s, t);
    forall k | i <= k < j && p(states[k])
      ensures p(states[k + 1])
    {
      StepRefuses(states, choices, k, t);
    }
    Stays(states, p, i, j);
  }

  /** The hub is closed only without a runtime, and without one it is closed or its lock is poisoned. */
  predicate HubClosedOk(h: Shared)
  {
    && (h.hub.closed ==> h.native.installed.None? && h.close.read)
    && (h.close.returned && h.native.installed.None? ==> h.hub.closed || h.hub.poisoned)
  }

  lemma MoveClosesHub(h: Shared, t: Thread, pc: Pc, fate: Fate)
    requires SharedOk(h) && ThreadOk(h, t, pc) && CanMove(h, pc) && HubClosedOk(h)
    ensures HubClosedOk(Move(h, t, pc, fate).0)
  {
  }

  /** In every run shutdown_native closes the hub exactly when there is no runtime to shut down. */
  lemma {:induction false} HubClosedIffNoRuntime(states: seq<State>, choices: seq<Choice>, i: nat)
    requires Behaviour(states, choices) && i < |states|
    ensures HubClosedOk(states[i].shared)
  {
    if i > 0 {
      HubClosedIffNoRuntime(states, choices, i - 1);
      BehaviourInv(states, choices, i - 1);
      var c := choices[i - 1];
      MoveClosesHub(AfterActivity(states[i - 1].shared, c.activity), c.thread, states[i - 1].pcs[c.thread], c.fate);
    }
  }

  // ----- The closed gate -----

  predicate GateOk(h: Shared) { h.close.gateClosing ==> h.world.gate.Shut() }

  /** The gate stays told to close and grants nothing. */
  predicate NoGrant(before: Shared, after: Shared)
  {
    after.close.gateClosing && after.world.live <= before.world.live && after.world.nextId == before.world.nextId
  }

  lemma MoveKeepsGate(h: Shared, t: Thread, pc: Pc, fate: Fate)
    requires GateOk(h)
    ensures
      var h' := Move(h, t, pc, fate).0;
      && GateOk(h')
      && (h.close.gateClosing ==> h'.close.gateClosing)
      && h'.world.live == h.world.live && h'.world.nextId == h.world.nextId
  {
  }

  /** No thread step grants a lease, and once the gate is closing no activity does either. */
  lemma NextKeepsGate(s: State, c: Choice)
    requires GateOk(s.shared) && c.thread in s.pcs
    ensures GateOk(Next(s, c).shared)
    ensures s.shared.close.gateClosing ==> NoGrant(s.shared, Next(s, c).shared)
  {
    if s.shared.close.gateClosing {
      ActivityGate.ShutForever(s.shared.world, c.activity);
    }
    MoveKeepsGate(AfterActivity(s.shared, c.activity), c.thread, s.pcs[c.thread], c.fate);
  }

  lemma {:induction false} GateInv(states: seq<State>, choices: seq<Choice>, i: nat)
    requires Behaviour(states, choices) && i < |states|
    ensures GateOk(states[i].shared)
  {
    if i > 0 {
      GateInv(states, choices, i - 1);
      NextKeepsGate(states[i - 1], choices[i - 1]);
    }
  }

  lemma StepKeepsGate(states: seq<State>, choices: seq<Choice>, i: nat)
    requires Behaviour(states, choices) && i < |choices| && states[i].shared.close.gateClosing
    ensures NoGrant(states[i].shared, states[i + 1].shared)
  {
    GateInv(states, choices, i);
    NextKeepsGate(states[i], choices[i]);
  }

  lemma NoGrantChains(a: Shared, b: Shared, c: Shared)
    requires NoGrant(a, b) && NoGrant(b, c)
    ensures NoGrant(a, c)
  {
  }

  lemma NoGrantAfterClose(states: seq<State>, choices: seq<Choice>, i: nat, j: nat)
    requires Behaviour(states, choices) && i <= j < |states| && states[i].shared.close.gateClosing
    ensures NoGrant(states[i].shared, states[j].shared)
  {
    var start := states[i].shared;
    var p := (s: State) => NoGrant(start, s.shared);
    forall k | i <= k < j && p(states[k])
      ensures p(states[k + 1])
    {
      StepKeepsGate(states, choices, k);
      NoGrantChains(start, states[k].shared, states[k + 1].shared);
    }
    Stays(states, p, i, j);
  }

  /** Once an accepted close has told the gate, it is shut, and no reservation is granted in the rest of the run. */
  lemma NoReservationAfterClose(states: seq<State>, choices: seq<Choice>, i: nat, j: nat)
    requires Behaviour(states, choices) && i <= j < |states| && states[i].shared.close.gateClosing
    ensures states[j].shared.world.gate.Shut()
    ensures states[j].shared.world.live <= states[i].shared.world.live
    ensures states[j].shared.world.nextId == states[i].shared.world.nextId
  {
    NoGrantAfterClose(states, choices, i, j);
    GateInv(states, choices, j);
  }

  // ----- No deadlock, and every run ends -----

  /** As long as some call has not returned, some thread can move. */
  lemma SomeoneCanMove(s: State, t: Thread)
    requires Inv(s) && t in s.pcs && !Returned(s.pcs[t])
    ensures exists u :: Enabled(s, u)
  {
    var n, b := s.shared.native.owner, s.shared.hub.owner;
    if !Enabled(s, t) {
      if s.pcs[t].EnsureLock? || s.pcs[t].CloseRead? {
        assert ThreadOk(s.shared, n.value, s.pcs[n.value]);
        assert Enabled(s, n.value);
      } else {
        assert ThreadOk(s.shared, b.value, s.pcs[b.value]);
        assert Enabled(s, b.value);
      }
    }
  }

  /** The most steps a thread at `pc` can still take. */
  function Remaining(pc: Pc): nat
  {
    match pc
    case EnsureStart => 6
    case EnsureLock => 5
    case EnsureLook => 4
    case EnsureBuild => 3
    case EnsureRecheck(_) => 2
    case EnsureAbandon(_) | EnsureInstall(_) => 1
    case CloseStart => 6
    case CloseGate => 5
    case CloseRead => 4
    case CloseHubLock => 3
    case CloseDispatch(_) | CloseHub => 2
    case CloseDestroy => 1
    case SubscribeStart => 4
    case SubscribeLock => 3
    case SubscribeRecheck => 2
    case Subscribe => 1
    case EnsureReturned(_) | CloseReturned | SubscribeReturned(_) => 0
  }

  ghost function Work(pcs: map<Thread, Pc>): nat
    decreases |pcs|
  {
    if pcs == map[] then 0
    else
      var t :| t in pcs;
      assert |pcs - {t}| < |pcs| by { assert (pcs - {t}).Keys == pcs.Keys - {t}; }
      Remaining(pcs[t]) + Work(pcs - {t})
  }

  /** The sum does not depend on the order in which threads are counted. */
  lemma {:induction false} WorkSplit(pcs: map<Thread, Pc>, t: Thread)
    requires t in pcs
    ensures Work(pcs) == Remaining(pcs[t]) + Work(pcs - {t})
    decreases |pcs|
  {
    var u :| u in pcs && Work(pcs) == Remaining(pcs[u]) + Work(pcs - {u});
    if u != t {
      assert (pcs - {u}).Keys == pcs.Keys - {u} && (pcs - {t}).Keys == pcs.Keys - {t};
      WorkSplit(pcs - {u}, t);
      WorkSplit(pcs - {t}, u);
      assert (pcs - {u}) - {t} == (pcs - {t}) - {u};
    }
  }

  lemma MoveWorks(h: Shared, t: Thread, pc: Pc, fate: Fate)
    requires CanMove(h, pc)
    ensures Remaining(Move(h, t, pc, fate).1) < Remaining(pc)
  {
  }

  lemma NextWorks(s: State, c: Choice)
    requires Enabled(s, c.thread)
    ensures Work(Next(s, c).pcs) < Work(s.pcs)
  {
    var t, after := c.thread, Next(s, c).pcs;
    MoveWorks(AfterActivity(s.shared, c.activity), t, s.pcs[t], c.fate);
    WorkSplit(s.pcs, t);
    WorkSplit(after, t);
    assert after - {t} == s.pcs - {t};
  }

  lemma {:induction false} WorkBound(pcs: map<Thread, Pc>)
    ensures Work(pcs) <= 6 * |pcs|
    decreases |pcs|
  {
    if pcs != map[] {
      var t :| t in pcs;
      assert (pcs - {t}).Keys == pcs.Keys - {t};
      WorkSplit(pcs, t);
      WorkBound(pcs - {t});
    }
  }

  lemma {:induction false} StepsAreBounded(states: seq<State>, choices: seq<Choice>, i: nat)
    requires Behaviour(states, choices) && i < |states|
    ensures i + Work(states[i].pcs) <= 6 * |states[0].pcs|
    ensures states[i].pcs.Keys == states[0].pcs.Keys
  {
    if i == 0 {
      WorkBound(states[0].pcs);
    } else {
      StepsAreBounded(states, choices, i - 1);
      NextWorks(states[i - 1], choices[i - 1]);
    }
  }

  lemma {:induction false} CloserStaysCloser(states: seq<State>, choices: seq<Choice>, i: nat, t: Thread)
    requires Behaviour(states, choices) && i < |states|
    requires t in states[0].pcs && states[0].pcs[t].CloseStart?
    ensures t in states[i].pcs && ClosePc(states[i].pcs[t])
  {
    if i > 0 {
      CloserStaysCloser(states, choices, i - 1, t);
    }
  }

  /**
   Every interleaving of `n` calls ends within `6 * n` steps.  When no thread
   can move and one of the calls was a close, all calls have returned, the
   window is destroyed, and every runtime ever built has been shut down.
   */
  lemma EveryCompleteRunCloses(states: seq<State>, choices: seq<Choice>, closer: Thread)
    requires Behaviour(states, choices)
    requires closer in states[0].pcs && states[0].pcs[closer].CloseStart?
    requires forall t :: !Enabled(states[|choices|], t)
    ensures |choices| <= 6 * |states[0].pcs|
    ensures
      var s := states[|choices|];
      && (forall t :: t in s.pcs ==> Returned(s.pcs[t]))
      && s.shared.close.destroyed
      && s.shared.ledger.built <= s.shared.ledger.shutDown
  {
    var s := states[|choices|];
    BehaviourInv(states, choices, |choices|);
    StepsAreBounded(states, choices, |choices|);
    forall t | t in s.pcs
      ensures Returned(s.pcs[t])
    {
      if !Returned(s.pcs[t]) { SomeoneCanMove(s, t); }
    }
    CloserStaysCloser(states, choices, |choices|, closer);
    assert ThreadOk(s.shared, closer, s.pcs[closer]);
    assert ThreadOk(s.shared, s.shared.close.accepted.value, s.pcs[s.shared.close.accepted.value]);
    InvShutsDownAll(s);
  }
}
