/**
 The admission gate for physical playback, calibration and update installation.

 `ActivityCoordinator` is the mutex-protected object.  `Gate` is its value, and
 the run model below it interleaves whole critical sections of any number of
 callers with the drops of the leases they hold.  A poisoned lock freezes the
 state: reservations report closing, releases do nothing.
 */
module ActivityGate {
  import opened Wrappers
  import opened Sets

  datatype ReservationError =
    | Closing
    | CalibrationAlreadyActive
    | PhysicalPlaybackActive
    | PhysicalReleaseUnverified
    | UpdateAlreadyActive

  datatype Gate = Gate(
    physicalPlayback: Option<string>,
    quarantined: bool,
    calibrationActive: bool,
    updateInstalling: bool,
    closing: bool,
    poisoned: bool)
  {
    /** No activity holds the gate. */
    predicate Idle() { physicalPlayback.None? && !calibrationActive && !updateInstalling }

    /** A state from which no reservation can succeed again. */
    predicate Shut() { closing || quarantined || poisoned }

    predicate Admits() { Idle() && !Shut() }

    predicate AtMostOneFlag()
    {
      && !(physicalPlayback.Some? && calibrationActive)
      && !(physicalPlayback.Some? && updateInstalling)
      && !(calibrationActive && updateInstalling)
    }
  }

  const OPEN_GATE := Gate(None, false, false, false, false, false)

  datatype Activity = Playback | Calibration | Update

  predicate Busy(g: Gate, a: Activity)
  {
    match a
    case Playback => g.physicalPlayback.Some?
    case Calibration => g.calibrationActive
    case Update => g.updateInstalling
  }

  function BusyError(a: Activity): ReservationError
  {
    match a
    case Playback => PhysicalPlaybackActive
    case Calibration => CalibrationAlreadyActive
    case Update => UpdateAlreadyActive
  }

  /** The order in which a caller looks at the activities. */
  datatype Order = Order(first: Activity, second: Activity, third: Activity)
  {
    predicate Complete() { first != second && second != third && first != third }
  }

  /** Why the gate refuses a caller that looks at the activities in this order. */
  function Refusal(g: Gate, order: Order): Option<ReservationError>
  {
    if g.poisoned || g.closing then Some(Closing)
    else if g.quarantined then Some(PhysicalReleaseUnverified)
    else if Busy(g, order.first) then Some(BusyError(order.first))
    else if Busy(g, order.second) then Some(BusyError(order.second))
    else if Busy(g, order.third) then Some(BusyError(order.third))
    else None
  }

  const PLAYBACK_ORDER := Order(Calibration, Update, Playback)
  const CALIBRATION_ORDER := Order(Calibration, Playback, Update)
  const UPDATE_ORDER := Order(Playback, Calibration, Update)

  /** A caller is refused exactly unless the gate admits, and the order matters only when two flags are set. */
  lemma RefusedIff(g: Gate, order: Order, other: Order)
    requires order.Complete() && other.Complete()
    ensures Refusal(g, order).None? <==> g.Admits()
    ensures g.AtMostOneFlag() ==> Refusal(g, order) == Refusal(g, other)
  {
    assert Busy(g, Playback) || Busy(g, Calibration) || Busy(g, Update) <==> !g.Idle();
  }

  // ----- The object -----

  class ActivityCoordinator {
    var physicalPlayback: Option<string>
    var physicalReleaseQuarantined: bool
    var calibrationActive: bool
    var updateInstalling: bool
    var closing: bool
    var poisoned: bool

    ghost function Value(): Gate
      reads this
    {
      Gate(physicalPlayback, physicalReleaseQuarantined, calibrationActive, updateInstalling, closing, poisoned)
    }

    constructor ()
      ensures Value() == OPEN_GATE
    {
      physicalPlayback := None;
      physicalReleaseQuarantined, calibrationActive, updateInstalling := false, false, false;
      closing, poisoned := false, false;
    }

    method ReservePlayback(sessionId: string) returns (refusal: Option<ReservationError>)
      modifies this
      ensures refusal.None? <==> old(Value().Admits())
      ensures refusal == Refusal(old(Value()), PLAYBACK_ORDER)
      ensures Value() == if refusal.None? then old(Value()).(physicalPlayback := Some(sessionId)) else old(Value())
    {
      if poisoned { return Some(Closing); }
      if closing { return Some(Closing); }
      if physicalReleaseQuarantined { return Some(PhysicalReleaseUnverified); }
      if calibrationActive { return Some(CalibrationAlreadyActive); }
      if updateInstalling { return Some(UpdateAlreadyActive); }
      if physicalPlayback.Some? { return Some(PhysicalPlaybackActive); }
      physicalPlayback := Some(sessionId);
      refusal := None;
    }

    method ReserveCalibration() returns (refusal: Option<ReservationError>)
      modifies this
      ensures refusal.None? <==> old(Value().Admits())
      ensures refusal == Refusal(old(Value()), CALIBRATION_ORDER)
      ensures Value() == if refusal.None? then old(Value()).(calibrationActive := true) else old(Value())
    {
      if poisoned { return Some(Closing); }
      if closing { return Some(Closing); }
      if physicalReleaseQuarantined { return Some(PhysicalReleaseUnverified); }
      if calibrationActive { return Some(CalibrationAlreadyActive); }
      if physicalPlayback.Some? { return Some(PhysicalPlaybackActive); }
      if updateInstalling { return Some(UpdateAlreadyActive); }
      calibrationActive := true;
      refusal := None;
    }

    method ReserveUpdate() returns (refusal: Option<ReservationError>)
      modifies this
      ensures refusal.None? <==> old(Value().Admits())
      ensures refusal == Refusal(old(Value()), UPDATE_ORDER)
      ensures Value() == if refusal.None? then old(Value()).(updateInstalling := true) else old(Value())
    {
      if poisoned { return Some(Closing); }
      if closing { return Some(Closing); }
      if physicalReleaseQuarantined { return Some(PhysicalReleaseUnverified); }
      if physicalPlayback.Some? { return Some(PhysicalPlaybackActive); }
      if calibrationActive { return Some(CalibrationAlreadyActive); }
      if updateInstalling { return Some(UpdateAlreadyActive); }
      updateInstalling := true;
      refusal := None;
    }

    method ReleasePlayback(sessionId: string)
      modifies this
      ensures Value() == AfterReleasePlayback(old(Value()), sessionId)
    {
      if !poisoned && physicalPlayback == Some(sessionId) {
        physicalPlayback := None;
      }
    }

    method QuarantinePlayback(sessionId: string) returns (done: bool)
      modifies this
      ensures done == QuarantineSucceeds(old(Value()), sessionId)
      ensures Value() == AfterQuarantine(old(Value()), sessionId)
      ensures done ==> physicalReleaseQuarantined && physicalPlayback.None?
    {
      if poisoned { return false; }
      if physicalPlayback.Some? && physicalPlayback.value != sessionId { return false; }
      physicalPlayback := None;
      physicalReleaseQuarantined := true;
      done := true;
    }

    method PhysicalReleaseIsQuarantined() returns (r: bool)
      ensures r <==> Value().quarantined || Value().poisoned
    {
      r := poisoned || physicalReleaseQuarantined;
    }

    method ReleaseCalibration()
      modifies this
      ensures Value() == AfterReleaseCalibration(old(Value()))
    {
      if !poisoned { calibrationActive := false; }
    }

    method ReleaseUpdate()
      modifies this
      ensures Value() == AfterReleaseUpdate(old(Value()))
    {
      if !poisoned { updateInstalling := false; }
    }

    method BeginShutdown()
      modifies this
      ensures Value() == AfterShutdown(old(Value()))
      ensures closing || poisoned
    {
      if !poisoned { closing := true; }
    }
  }

  // ----- Values of the critical sections -----

  function AfterReleasePlayback(g: Gate, session: string): Gate
  {
    if !g.poisoned && g.physicalPlayback == Some(session) then g.(physicalPlayback := None) else g
  }

  predicate QuarantineSucceeds(g: Gate, session: string)
  {
    !g.poisoned && (g.physicalPlayback.None? || g.physicalPlayback == Some(session))
  }

  function AfterQuarantine(g: Gate, session: string): Gate
  {
    if QuarantineSucceeds(g, session) then g.(physicalPlayback := None, quarantined := true) else g
  }

  function AfterReleaseCalibration(g: Gate): Gate { if g.poisoned then g else g.(calibrationActive := false) }

  function AfterReleaseUpdate(g: Gate): Gate { if g.poisoned then g else g.(updateInstalling := false) }

  function AfterShutdown(g: Gate): Gate { if g.poisoned then g else g.(closing := true) }

  // ----- Runs -----

  /** A lease value; the id tells apart successive leases of one kind. */
  datatype Lease =
    | PlaybackLease(id: nat, session: string)
    | CalibrationLease(id: nat)
    | UpdateLease(id: nat)

  /** The gate together with the leases that callers still hold. */
  datatype World = World(gate: Gate, live: set<Lease>, nextId: nat)

  const START := World(OPEN_GATE, {}, 0)

  /**
   One critical section.  A lease's own quarantine is `Quarantine` of its
   session followed by its `Drop`, with other steps possible in between.
   */
  datatype Step =
    | ReservePlayback(session: string)
    | ReserveCalibration
    | ReserveUpdate
    | Drop(lease: Lease)
    | Quarantine(session: string)
    | ReleaseCalibrationDirectly
    | BeginShutdown
    | Poison

  /** Only a live lease can be dropped; everything else may happen at any time. */
  predicate Possible(w: World, step: Step) { step.Drop? ==> step.lease in w.live }

  function Grant(w: World, gate: Gate, lease: Lease): World
  {
    World(gate, w.live + {lease}, w.nextId + 1)
  }

  function Next(w: World, step: Step): World
  {
    match step
    case ReservePlayback(session) =>
      if w.gate.Admits()
      then Grant(w, w.gate.(physicalPlayback := Some(session)), PlaybackLease(w.nextId, session)) else w
    case ReserveCalibration =>
      if w.gate.Admits()
      then Grant(w, w.gate.(calibrationActive := true), CalibrationLease(w.nextId)) else w
    case ReserveUpdate =>
      if w.gate.Admits()
      then Grant(w, w.gate.(updateInstalling := true), UpdateLease(w.nextId)) else w
    case Drop(lease) =>
      var gate :=
        match lease
        case PlaybackLease(_, session) => AfterReleasePlayback(w.gate, session)
        case CalibrationLease(_) => AfterReleaseCalibration(w.gate)
        case UpdateLease(_) => AfterReleaseUpdate(w.gate);
      w.(gate := gate, live := w.live - {lease})
    case Quarantine(session) => w.(gate := AfterQuarantine(w.gate, session))
    case ReleaseCalibrationDirectly => w.(gate := AfterReleaseCalibration(w.gate))
    case BeginShutdown => w.(gate := AfterShutdown(w.gate))
    case Poison => w.(gate := w.gate.(poisoned := true))
  }

  function Run(w: World, steps: seq<Step>): World
  {
    if steps == [] then w else Next(Run(w, steps[..|steps| - 1]), steps[|steps| - 1])
  }

  /** Every step is possible in the world it is taken from. */
  predicate Legal(w: World, steps: seq<Step>)
  {
    steps == []
    || (Legal(w, steps[..|steps| - 1]) && Possible(Run(w, steps[..|steps| - 1]), steps[|steps| - 1]))
  }

  // ----- What every run keeps -----

  predicate HasCalibration(w: World) { exists l :: l in w.live && l.CalibrationLease? }

  predicate HasUpdate(w: World) { exists l :: l in w.live && l.UpdateLease? }

  predicate HasPlayback(w: World, session: string)
  {
    exists l :: l in w.live && l.PlaybackLease? && l.session == session
  }

  /** Holds in every reachable world, direct calibration releases included. */
  predicate Sound(w: World)
  {
    && w.gate.AtMostOneFlag()
    // Ids are fresh.
    && (forall l :: l in w.live ==> l.id < w.nextId)
    // Playback and update leases exclude each other and themselves.
    && (forall l, k :: l in w.live && k in w.live && !l.CalibrationLease? && !k.CalibrationLease? ==> l == k)
    // A live lease still blocks the others.
    && (forall l :: l in w.live && l.PlaybackLease? ==>
          w.gate.physicalPlayback == Some(l.session) || w.gate.quarantined)
    && (forall l :: l in w.live && l.UpdateLease? ==> w.gate.updateInstalling)
    // An unpoisoned gate is occupied only on behalf of a live lease.
    && (!w.gate.poisoned && w.gate.physicalPlayback.Some? ==> HasPlayback(w, w.gate.physicalPlayback.value))
    && (!w.gate.poisoned && w.gate.calibrationActive ==> HasCalibration(w))
    && (!w.gate.poisoned && w.gate.updateInstalling ==> HasUpdate(w))
  }

  /** Holds as well while calibration is not released under a live lease that the gate still relies on. */
  predicate Exclusive(w: World)
  {
    && Sound(w)
    && (forall l :: l in w.live && l.CalibrationLease? ==> w.gate.calibrationActive || w.gate.Shut())
    && (forall l, k :: l in w.live && k in w.live ==> l == k)
  }

  lemma GrantSound(w: World, gate: Gate, lease: Lease)
    requires Sound(w) && w.gate.Admits() && lease.id == w.nextId
    requires match lease
             case PlaybackLease(_, session) => gate == w.gate.(physicalPlayback := Some(session))
             case CalibrationLease(_) => gate == w.gate.(calibrationActive := true)
             case UpdateLease(_) => gate == w.gate.(updateInstalling := true)
    ensures Sound(Grant(w, gate, lease))
  {
  }

  lemma DropSound(w: World, lease: Lease)
    requires Sound(w) && lease in w.live
    ensures Sound(Next(w, Drop(lease)))
  {
    var v := Next(w, Drop(lease));
    if !v.gate.poisoned && v.gate.physicalPlayback.Some? {
      var l :| l in w.live && l.PlaybackLease? && l.session == v.gate.physicalPlayback.value;
      assert l != lease && l in v.live;
    }
    if !v.gate.poisoned && v.gate.calibrationActive {
      var l :| l in w.live && l.CalibrationLease?;
      assert l != lease && l in v.live;
    }
    if !v.gate.poisoned && v.gate.updateInstalling {
      var l :| l in w.live && l.UpdateLease?;
      assert l != lease && l in v.live;
    }
  }

  lemma NextSound(w: World, step: Step)
    requires Sound(w) && Possible(w, step)
    ensures Sound(Next(w, step))
  {
    var v := Next(w, step);
    match step
    case ReservePlayback(session) =>
      if w.gate.Admits() { GrantSound(w, v.gate, PlaybackLease(w.nextId, session)); }
    case ReserveCalibration =>
      if w.gate.Admits() { GrantSound(w, v.gate, CalibrationLease(w.nextId)); }
    case ReserveUpdate =>
      if w.gate.Admits() { GrantSound(w, v.gate, UpdateLease(w.nextId)); }
    case Drop(lease) =>
      DropSound(w, lease);
    case _ =>
      assert v.live == w.live;
  }

  lemma NextExclusive(w: World, step: Step)
    requires Exclusive(w) && Possible(w, step)
    requires step.ReleaseCalibrationDirectly? ==> !HasCalibration(w) || w.gate.Shut()
    ensures Exclusive(Next(w, step))
  {
    NextSound(w, step);
  }

  /** Every reachable world is sound. */
  lemma {:induction false} RunSound(steps: seq<Step>)
    requires Legal(START, steps)
    ensures Sound(Run(START, steps))
  {
    if steps != [] {
      RunSound(steps[..|steps| - 1]);
      NextSound(Run(START, steps[..|steps| - 1]), steps[|steps| - 1]);
    }
  }

  /** Direct releases, if any, happen only while no calibration lease is live or the gate is shut. */
  predicate CarefulReleases(w: World, steps: seq<Step>)
  {
    steps == []
    || (&& CarefulReleases(w, steps[..|steps| - 1])
        && (steps[|steps| - 1].ReleaseCalibrationDirectly? ==>
              var before := Run(w, steps[..|steps| - 1]);
              !HasCalibration(before) || before.gate.Shut()))
  }

  /** Careful releases keep exclusion from any world on. */
  lemma {:induction false} RunKeepsExclusive(w: World, steps: seq<Step>)
    requires Exclusive(w) && Legal(w, steps) && CarefulReleases(w, steps)
    ensures Exclusive(Run(w, steps))
    ensures |Run(w, steps).live| <= 1
  {
    if steps != [] {
      RunKeepsExclusive(w, steps[..|steps| - 1]);
      NextExclusive(Run(w, steps[..|steps| - 1]), steps[|steps| - 1]);
    }
    AtMostOneElement(Run(w, steps).live);
  }

  /** At most one lease of any kind is ever live in a run with careful releases. */
  lemma {:induction false} RunExclusive(steps: seq<Step>)
    requires Legal(START, steps) && CarefulReleases(START, steps)
    ensures Exclusive(Run(START, steps))
    ensures |Run(START, steps).live| <= 1
  {
    RunKeepsExclusive(START, steps);
  }

  predicate NoDirectRelease(steps: seq<Step>)
  {
    forall i :: 0 <= i < |steps| ==> !steps[i].ReleaseCalibrationDirectly?
  }

  lemma {:induction false} NoReleaseIsCareful(w: World, steps: seq<Step>)
    requires NoDirectRelease(steps)
    ensures CarefulReleases(w, steps)
  {
    if steps != [] { NoReleaseIsCareful(w, steps[..|steps| - 1]); }
  }

  lemma DirectReleaseThenUpdate(w: World)
    requires Exclusive(w) && HasCalibration(w) && !w.gate.Shut()
    ensures |Next(Next(w, ReleaseCalibrationDirectly), ReserveUpdate).live| == 2
  {
    var l :| l in w.live && l.CalibrationLease?;
    assert w.live == {l};
    var u := Next(Next(w, ReleaseCalibrationDirectly), ReserveUpdate);
    assert u.live == {l, UpdateLease(w.nextId)};
  }

  lemma {:induction false} HarmlessDirectRelease(w: World, steps: seq<Step>)
    requires Exclusive(w) && !(HasCalibration(w) && !w.gate.Shut())
    requires Legal(Next(w, ReleaseCalibrationDirectly), steps) && NoDirectRelease(steps)
    ensures |Run(Next(w, ReleaseCalibrationDirectly), steps).live| <= 1
  {
    NextExclusive(w, ReleaseCalibrationDirectly);
    NoReleaseIsCareful(Next(w, ReleaseCalibrationDirectly), steps);
    RunKeepsExclusive(Next(w, ReleaseCalibrationDirectly), steps);
  }

  /** After a direct calibration release, some continuation without another one has two live leases. */
  predicate LeadsToTwoLeases(w: World, steps: seq<Step>)
  {
    var v := Next(w, ReleaseCalibrationDirectly);
    Legal(v, steps) && NoDirectRelease(steps) && |Run(v, steps).live| > 1
  }

  /**
   A direct calibration release endangers exclusion exactly when a calibration
   lease is live and the gate can still admit: only then does any continuation,
   however long, put two leases in play.
   */
  lemma DirectReleaseBreaksExclusionIff(w: World)
    requires Exclusive(w)
    ensures (exists steps :: LeadsToTwoLeases(w, steps)) <==> HasCalibration(w) && !w.gate.Shut()
  {
    if HasCalibration(w) && !w.gate.Shut() {
      DirectReleaseThenUpdate(w);
      RunAppend(Next(w, ReleaseCalibrationDirectly), [], ReserveUpdate);
      assert LeadsToTwoLeases(w, [] + [ReserveUpdate]);
    } else {
      forall steps
        ensures !LeadsToTwoLeases(w, steps)
      {
        if LeadsToTwoLeases(w, steps) { HarmlessDirectRelease(w, steps); }
      }
    }
  }

  lemma {:induction false} RunAppend(w: World, steps: seq<Step>, step: Step)
    ensures Run(w, steps + [step]) == Next(Run(w, steps), step)
    ensures Legal(w, steps + [step]) <==> Legal(w, steps) && Possible(Run(w, steps), step)
  {
    assert (steps + [step])[..|steps|] == steps;
  }

  /** The two-lease run itself: reserve calibration, release it directly, reserve an update. */
  lemma {:induction false} DirectReleaseCounterexample(steps: seq<Step>)
    requires steps == [] + [ReserveCalibration] + [ReleaseCalibrationDirectly] + [ReserveUpdate]
    ensures Legal(START, steps)
    ensures |Run(START, steps).live| == 2
  {
    RunAppend(START, [], ReserveCalibration);
    RunAppend(START, [] + [ReserveCalibration], ReleaseCalibrationDirectly);
    RunAppend(START, [] + [ReserveCalibration] + [ReleaseCalibrationDirectly], ReserveUpdate);
    assert Run(START, steps).live == {CalibrationLease(0), UpdateLease(1)};
  }

  lemma SoundQuarantine(w: World, lease: Lease)
    requires Sound(w) && lease in w.live && lease.PlaybackLease?
    ensures QuarantineSucceeds(w.gate, lease.session) <==> !w.gate.poisoned
  {
  }

  /** The quarantine of a live playback lease's session succeeds unless the lock is poisoned. */
  lemma {:induction false} OwnQuarantineSucceeds(steps: seq<Step>, lease: Lease)
    requires Legal(START, steps) && lease in Run(START, steps).live && lease.PlaybackLease?
    ensures QuarantineSucceeds(Run(START, steps).gate, lease.session) <==> !Run(START, steps).gate.poisoned
  {
    RunSound(steps);
    SoundQuarantine(Run(START, steps), lease);
  }

  /** Once closing, quarantined or poisoned, no continuation ever grants another lease. */
  lemma {:induction false} ShutForever(w: World, steps: seq<Step>)
    requires w.gate.Shut()
    ensures Run(w, steps).gate.Shut()
    ensures Run(w, steps).live <= w.live
    ensures Run(w, steps).nextId == w.nextId
  {
    if steps != [] {
      ShutForever(w, steps[..|steps| - 1]);
    }
  }

  /** A step that shuts the gate ends all admission: no continuation grants a lease. */
  lemma {:induction false} NothingGrantedAfter(steps: seq<Step>, step: Step, more: seq<Step>)
    requires Next(Run(START, steps), step).gate.Shut()
    ensures
      var w := Run(START, steps + [step]);
      Run(w, more).live <= w.live && Run(w, more).nextId == w.nextId && Run(w, more).gate.Shut()
  {
    RunAppend(START, steps, step);
    ShutForever(Run(START, steps + [step]), more);
  }

  /** Quarantining a live playback lease on a sound lock ends the playback and every later admission. */
  lemma {:induction false} QuarantineIsFinal(steps: seq<Step>, lease: Lease, more: seq<Step>)
    requires Legal(START, steps) && lease in Run(START, steps).live && lease.PlaybackLease?
    requires !Run(START, steps).gate.poisoned
    ensures
      var w := Run(START, steps + [Quarantine(lease.session)]);
      && w.gate.quarantined && w.gate.physicalPlayback.None?
      && (forall order: Order :: Refusal(w.gate, order) == Some(if w.gate.closing then Closing else PhysicalReleaseUnverified))
      && Run(w, more).live <= w.live && Run(w, more).nextId == w.nextId
  {
    OwnQuarantineSucceeds(steps, lease);
    RunAppend(START, steps, Quarantine(lease.session));
    NothingGrantedAfter(steps, Quarantine(lease.session), more);
  }

  /** Shutting down on any lock ends every later admission, with closing as the reason. */
  lemma {:induction false} ShutdownIsFinal(steps: seq<Step>, more: seq<Step>)
    ensures
      var w := Run(START, steps + [BeginShutdown]);
      && (forall order: Order :: Refusal(w.gate, order) == Some(Closing))
      && Run(w, more).live <= w.live && Run(w, more).nextId == w.nextId
  {
    RunAppend(START, steps, BeginShutdown);
    NothingGrantedAfter(steps, BeginShutdown, more);
  }

  /** When every lease is gone the gate is idle again, so nothing is leaked. */
  lemma {:induction false} NoLeaseLeaks(steps: seq<Step>)
    requires Legal(START, steps) && Run(START, steps).live == {}
    ensures var g := Run(START, steps).gate; g.poisoned || g.Idle()
    ensures var g := Run(START, steps).gate; g.Admits() <==> !g.Shut()
  {
    RunSound(steps);
  }
}
