/** The capture queue as a protocol between one producer and one worker.

    A step is one critical section, one blocking call or one export outside the lock.  `pending` is
    the FIFO that the bytes of the ring encode; the program on those bytes follows this protocol, as
    CaptureProgram proves.  `offered`, `accepted`, `exported` and the two final reports are the
    history the theorems speak about. */
module CaptureQueue {
  import opened QueueRecords
  import CaptureRing

  datatype Worker =
    | Ready                        // about to take the lock and test for work
    | Waiting(woken: bool)         // inside pthread_cond_wait; `woken` once a signal reached it
    | Exporting(record: Record)    // lock released, record copied out
    | Ticking(leaving: bool)       // lock released, periodic work; `leaving` if stop was seen
    | Finished                     // returned, so that the join in capture_queue_stop returns

  datatype State = State(
    capacity: nat, pending: seq<Record>, dropped: nat, kernelLost: nat,
    stopping: bool, tick: bool, worker: Worker,
    offered: seq<Record>, accepted: seq<Record>, late: seq<Record>, exported: seq<Record>,
    reportedLost: nat, reportedDropped: nat)

  datatype Action =
    | Push(record: Record)
    | Tick
    | Stop
    | Lock          // worker: one critical section from Ready
    | Wake          // worker: leave pthread_cond_wait, signalled or spuriously
    | Export        // worker: export the copied record
    | AfterTick     // worker: finish the periodic work and go on or leave

  function Init(capacity: nat): State {
    State(capacity, [], 0, 0, false, false, Ready, [], [], [], [], 0, 0)
  }

  /** A signal reaches the worker only while it waits. */
  function Signal(w: Worker): Worker {
    if w.Waiting? then Waiting(true) else w
  }

  function PushStep(s: State, r: Record): State {
    if CaptureRing.Accepts(s.capacity, s.pending, r) then Taken(s, r) else Refused(s, r)
  }

  /** The record goes into the ring. */
  function Taken(s: State, r: Record): State {
    s.(offered := s.offered + [r], accepted := s.accepted + [r], pending := s.pending + [r],
       late := if IsLeaving(s.worker) then s.late + [r] else s.late,
       worker := if s.pending == [] then Signal(s.worker) else s.worker)
  }

  /** The record is counted as lost. */
  function Refused(s: State, r: Record): State {
    s.(offered := s.offered + [r],
       kernelLost := s.kernelLost + r.LostCount(),
       dropped := s.dropped + if r.Event? then 1 else 0)
  }

  /** The worker has seen the stop request and an empty ring. */
  predicate IsLeaving(w: Worker) {
    w == Ticking(true) || w == Finished
  }

  /** When an action can happen.  The queue is gone once the worker has finished and the join returned. */
  predicate Enabled(s: State, a: Action) {
    match a
    case Push(r) => s.worker != Finished && r.Representable()
    case Tick => true
    case Stop => !s.stopping
    case Lock => s.worker == Ready
    case Wake => s.worker.Waiting?
    case Export => s.worker.Exporting?
    case AfterTick => s.worker.Ticking?
  }

  function Step(s: State, a: Action): State
    requires Enabled(s, a)
  {
    match a
    case Push(r) => PushStep(s, r)
    case Tick => s.(tick := true, worker := Signal(s.worker))
    case Stop => s.(stopping := true, worker := Signal(s.worker))
    case Lock =>
      if s.pending == [] && !s.stopping && !s.tick then s.(worker := Waiting(false))
      else if s.pending == [] then s.(tick := false, worker := Ticking(s.stopping))
      else s.(pending := s.pending[1..], worker := Exporting(s.pending[0]))
    case Wake => s.(worker := Ready)
    case Export => s.(exported := s.exported + [s.worker.record], worker := Ready)
    case AfterTick =>
      if s.worker.leaving
      then s.(worker := Finished, reportedLost := s.kernelLost, reportedDropped := s.dropped)
      else s.(worker := Ready)
  }

  // ----- The invariant

  ghost function InFlight(w: Worker): seq<Record> {
    if w.Exporting? then [w.record] else []
  }

  /** Accepted records are exported, being exported, or still in the ring, in that order. */
  ghost predicate Delivered(s: State) {
    s.exported + InFlight(s.worker) + s.pending == s.accepted
  }

  ghost function CountEvents(rs: seq<Record>): nat {
    if rs == [] then 0 else CountEvents(rs[..|rs| - 1]) + if rs[|rs| - 1].Event? then 1 else 0
  }

  ghost function SumLost(rs: seq<Record>): nat {
    if rs == [] then 0 else SumLost(rs[..|rs| - 1]) + rs[|rs| - 1].LostCount()
  }

  ghost predicate Balanced(s: State) {
    CountEvents(s.offered) == CountEvents(s.accepted) + s.dropped &&
    SumLost(s.offered) == SumLost(s.accepted) + s.kernelLost
  }

  /** A worker blocked with no signal outstanding has nothing to do. */
  ghost predicate NoLostWakeup(s: State) {
    s.worker == Waiting(false) ==> s.pending == [] && !s.tick && !s.stopping
  }

  ghost predicate Leaving(s: State) {
    (if IsLeaving(s.worker) then s.stopping && s.pending == s.late else s.late == []) &&
    (s.worker == Finished ==> s.reportedLost == s.kernelLost && s.reportedDropped == s.dropped)
  }

  ghost predicate Invariant(s: State) {
    Delivered(s) && Used(s.pending) <= s.capacity && Balanced(s) && NoLostWakeup(s) && Leaving(s)
  }

  // ----- Every step keeps it

  lemma {:induction false} UsedAppend(rs: seq<Record>, r: Record)
    ensures Used(rs + [r]) == Used(rs) + HEADER_BYTES + r.Size()
  {
    if rs == [] {
      assert rs + [r] == [r];
    } else {
      UsedAppend(rs[1..], r);
      assert (rs + [r])[1..] == rs[1..] + [r];
    }
  }

  lemma {:induction false} CountAppend(rs: seq<Record>, r: Record)
    ensures CountEvents(rs + [r]) == CountEvents(rs) + if r.Event? then 1 else 0
    ensures SumLost(rs + [r]) == SumLost(rs) + r.LostCount()
  {
    assert (rs + [r])[..|rs|] == rs;
  }

  lemma {:induction false} TakenDelivers(s: State, r: Record)
    requires Delivered(s)
    ensures Delivered(Taken(s, r))
  {
    assert InFlight(Taken(s, r).worker) == InFlight(s.worker);
    assert s.exported + InFlight(s.worker) + (s.pending + [r]) == s.exported + InFlight(s.worker) + s.pending + [r];
  }

  lemma {:induction false} TakenBalances(s: State, r: Record)
    requires Balanced(s)
    ensures Balanced(Taken(s, r))
  {
    CountAppend(s.offered, r);
    CountAppend(s.accepted, r);
  }

  lemma {:induction false} TakenWakes(s: State, r: Record)
    requires NoLostWakeup(s) && Leaving(s) && s.worker != Finished
    ensures NoLostWakeup(Taken(s, r)) && Leaving(Taken(s, r))
  {
    var t := Taken(s, r);
    assert IsLeaving(t.worker) == IsLeaving(s.worker) && (t.worker == s.worker || t.worker == Signal(s.worker));
  }

  lemma {:induction false} TakenKeeps(s: State, r: Record)
    requires Invariant(s) && s.worker != Finished && CaptureRing.Accepts(s.capacity, s.pending, r)
    ensures Invariant(Taken(s, r))
  {
    UsedAppend(s.pending, r);
    TakenBalances(s, r);
    TakenDelivers(s, r);
    TakenWakes(s, r);
  }

  lemma {:induction false} RefusedKeeps(s: State, r: Record)
    requires Invariant(s) && s.worker != Finished
    ensures Invariant(Refused(s, r))
  {
    CountAppend(s.offered, r);
  }

  lemma {:induction false} PushKeeps(s: State, r: Record)
    requires Invariant(s) && Enabled(s, Push(r))
    ensures Invariant(Step(s, Push(r)))
  {
    if CaptureRing.Accepts(s.capacity, s.pending, r) {
      TakenKeeps(s, r);
    } else {
      RefusedKeeps(s, r);
    }
  }

  lemma {:induction false} LockKeeps(s: State)
    requires Invariant(s) && Enabled(s, Lock)
    ensures Invariant(Step(s, Lock))
  {
    if s.pending != [] {
      FrontMoves(s.exported, s.pending);
    } else {
      assert s.exported + [] + [] == s.exported;
    }
  }

  /** The record at the front goes from the ring to the worker. */
  lemma {:induction false} FrontMoves(exported: seq<Record>, pending: seq<Record>)
    requires pending != []
    ensures exported + [pending[0]] + pending[1..] == exported + [] + pending
    ensures Used(pending[1..]) <= Used(pending)
  {
    assert [pending[0]] + pending[1..] == pending;
  }

  lemma {:induction false} SignalKeeps(s: State, a: Action)
    requires Invariant(s) && Enabled(s, a) && (a.Tick? || a.Stop? || a.Wake?)
    ensures Invariant(Step(s, a))
  {
    assert InFlight(Step(s, a).worker) == InFlight(s.worker);
  }

  lemma {:induction false} ExportKeeps(s: State)
    requires Invariant(s) && Enabled(s, Export)
    ensures Invariant(Step(s, Export))
  {
    assert s.exported + [s.worker.record] + [] == s.exported + [s.worker.record];
  }

  lemma {:induction false} AfterTickKeeps(s: State)
    requires Invariant(s) && Enabled(s, AfterTick)
    ensures Invariant(Step(s, AfterTick))
  {
    assert InFlight(Step(s, AfterTick).worker) == InFlight(s.worker);
  }

  lemma {:induction false} StepKeepsInvariant(s: State, a: Action)
    requires Invariant(s) && Enabled(s, a)
    ensures Invariant(Step(s, a))
  {
    match a
    case Push(r) => PushKeeps(s, r);
    case Lock => LockKeeps(s);
    case Export => ExportKeeps(s);
    case AfterTick => AfterTickKeeps(s);
    case _ => SignalKeeps(s, a);
  }

  // ----- Whole runs

  /** The state after any interleaving; an action that cannot happen leaves the state as it is. */
  function Run(capacity: nat, actions: seq<Action>): State {
    if actions == [] then Init(capacity)
    else
      var before := Run(capacity, actions[..|actions| - 1]);
      var last := actions[|actions| - 1];
      if Enabled(before, last) then Step(before, last) else before
  }

  lemma {:induction false} EveryRunKeepsInvariant(capacity: nat, actions: seq<Action>)
    ensures Invariant(Run(capacity, actions))
    decreases |actions|
  {
    if actions != [] {
      var before := Run(capacity, actions[..|actions| - 1]);
      var last := actions[|actions| - 1];
      EveryRunKeepsInvariant(capacity, actions[..|actions| - 1]);
      if Enabled(before, last) { StepKeepsInvariant(before, last); }
    }
  }

  /** At every point of every run the worker has delivered the accepted records unsplit, in order
      and without gaps, the ring is never overfull, and the worker is never left asleep with work. */
  lemma {:induction false} DeliveryIsFifo(capacity: nat, actions: seq<Action>, s: State)
    requires s == Run(capacity, actions)
    ensures s.exported <= s.accepted
    ensures s.pending == [] && !s.worker.Exporting? ==> s.exported == s.accepted
    ensures Used(s.pending) <= s.capacity
    ensures s.worker == Waiting(false) ==> s.pending == [] && !s.tick && !s.stopping
  {
    EveryRunKeepsInvariant(capacity, actions);
  }

  /** The records accepted and not yet taken out by the worker. */
  ghost function Untaken(s: State): seq<Record>
    requires |s.exported| + |InFlight(s.worker)| <= |s.accepted|
  {
    s.accepted[|s.exported| + |InFlight(s.worker)|..]
  }

  lemma {:induction false} PushExactly(s: State, r: Record)
    requires Delivered(s) && s.worker != Finished && r.Representable()
    ensures var t := Step(s, Push(r));
            |s.exported| + |InFlight(s.worker)| <= |s.accepted| && t.offered == s.offered + [r] &&
            if r.Size() <= 65536 && 16 + r.Size() <= s.capacity - Used(Untaken(s))
            then t.accepted == s.accepted + [r] && t.dropped == s.dropped && t.kernelLost == s.kernelLost
            else t.accepted == s.accepted &&
                 t.dropped == s.dropped + (if r.Event? then 1 else 0) && t.kernelLost == s.kernelLost + r.LostCount()
  {
    UntakenIsPending(s);
  }

  /** In every run a record is accepted if and only if its sample has at most 64 KiB and its header and
      sample fit beside the records accepted and not yet taken; otherwise it is counted as lost. */
  lemma {:induction false} AcceptedExactly(capacity: nat, actions: seq<Action>, r: Record)
    requires Run(capacity, actions).worker != Finished && r.Representable()
    ensures var s, t := Run(capacity, actions), Run(capacity, actions + [Push(r)]);
            |s.exported| + |InFlight(s.worker)| <= |s.accepted| && t.offered == s.offered + [r] &&
            if r.Size() <= 65536 && 16 + r.Size() <= capacity - Used(Untaken(s))
            then t.accepted == s.accepted + [r] && t.dropped == s.dropped && t.kernelLost == s.kernelLost
            else t.accepted == s.accepted &&
                 t.dropped == s.dropped + (if r.Event? then 1 else 0) && t.kernelLost == s.kernelLost + r.LostCount()
  {
    EveryRunKeepsInvariant(capacity, actions);
    RunOne(capacity, actions, Push(r));
    PushExactly(Run(capacity, actions), r);
    CapacityStays(capacity, actions);
  }

  lemma {:induction false} UntakenIsPending(s: State)
    requires Delivered(s)
    ensures |s.exported| + |InFlight(s.worker)| <= |s.accepted| && Untaken(s) == s.pending
  {
    var out := s.exported + InFlight(s.worker);
    assert s.accepted == out + s.pending && |out| == |s.exported| + |InFlight(s.worker)|;
    assert (out + s.pending)[|out|..] == s.pending;
  }

  lemma {:induction false} CapacityStays(capacity: nat, actions: seq<Action>)
    ensures Run(capacity, actions).capacity == capacity
  {
    if actions != [] { CapacityStays(capacity, actions[..|actions| - 1]); }
  }

  /** A tick is never forgotten: it stays requested until the worker begins the periodic work, which it
      does for no other reason until it leaves; with nothing to do it waits, and records come first. */
  lemma {:induction false} TicksAreServed(s: State, a: Action)
    requires Enabled(s, a)
    ensures Step(s, Tick).tick
    ensures s.tick && !Step(s, a).tick ==> s.worker == Ready && Step(s, a).worker.Ticking?
    ensures a.AfterTick? && s.worker == Ticking(false) ==> Step(s, a).worker == Ready
    ensures s.worker == Ready && Step(s, a).worker == Ticking(false) ==> s.tick
    ensures a.Lock? && s.pending == [] && !s.tick && !s.stopping ==> Step(s, a).worker == Waiting(false)
    ensures a.Lock? && s.pending != [] ==> Step(s, a).worker == Exporting(s.pending[0])
  {
  }

  /** When stop returns every loss is reported, and everything accepted has been delivered but for
      what was pushed after the worker had found the stop request and an empty ring: if there was no
      such push, and only then, everything has been delivered. */
  lemma {:induction false} StopDeliversEverything(capacity: nat, actions: seq<Action>, s: State)
    requires s == Run(capacity, actions) && s.worker == Finished
    ensures s.exported + s.late == s.accepted && (s.exported == s.accepted <==> s.late == [])
    ensures CountEvents(s.offered) == CountEvents(s.accepted) + s.reportedDropped
    ensures SumLost(s.offered) == SumLost(s.accepted) + s.reportedLost
  {
    EveryRunKeepsInvariant(capacity, actions);
    AllExported(s);
    assert |s.accepted| == |s.exported| + |s.late|;
  }

  lemma {:induction false} RunOne(capacity: nat, actions: seq<Action>, a: Action)
    requires Enabled(Run(capacity, actions), a)
    ensures Run(capacity, actions + [a]) == Step(Run(capacity, actions), a)
  {
    assert (actions + [a])[..|actions + [a]| - 1] == actions;
  }

  /** A push that comes too late is accepted and never delivered. */
  lemma {:induction false} LatePushIsLost(capacity: nat) returns (actions: seq<Action>)
    requires HEADER_BYTES <= capacity
    ensures var s := Run(capacity, actions);
            s.worker == Finished && s.accepted == s.late == [Event(0, [])] && s.exported == []
  {
    var r := Event(0, []);
    actions := [];
    RunOne(capacity, actions, Stop);
    actions := actions + [Stop];
    RunOne(capacity, actions, Lock);
    actions := actions + [Lock];
    assert Run(capacity, actions).worker == Ticking(true) && Run(capacity, actions).pending == [];
    assert Used([]) == 0;
    RunOne(capacity, actions, Push(r));
    actions := actions + [Push(r)];
    assert Run(capacity, actions).late == [] + [r] == [r];
    RunOne(capacity, actions, AfterTick);
    actions := actions + [AfterTick];
  }

  // ----- Stop always returns

  ghost function WorkLeft(s: State): nat {
    match s.worker
    case Ready => 4 * |s.pending| + 3
    case Waiting(_) => 4 * |s.pending| + 4
    case Exporting(_) => 4 * |s.pending| + 5
    case Ticking(leaving) => if leaving then 1 else 4 * |s.pending| + 4
    case Finished => 0
  }

  ghost function NextMove(w: Worker): Action
    requires w != Finished
  {
    match w
    case Ready => Lock
    case Waiting(_) => Wake
    case Exporting(_) => Export
    case Ticking(_) => AfterTick
  }

  /** Once stop is requested the worker can move until it has finished, and that move, the only one
      open to it, leaves less work. */
  lemma {:induction false} StopMakesProgress(s: State)
    requires Invariant(s) && s.stopping && s.worker != Finished
    ensures Enabled(s, NextMove(s.worker))
    ensures forall a :: a in {Lock, Wake, Export, AfterTick} && Enabled(s, a) ==> a == NextMove(s.worker)
    ensures WorkLeft(Step(s, NextMove(s.worker))) < WorkLeft(s)
  {
  }

  /** Ticks that still arrive while stopping add no work. */
  lemma {:induction false} TicksAddNoWork(s: State)
    requires Invariant(s) && s.stopping
    ensures Step(s, Tick).stopping && WorkLeft(Step(s, Tick)) == WorkLeft(s)
    ensures Invariant(Step(s, Tick))
  {
    StepKeepsInvariant(s, Tick);
  }

  /** A schedule after the stop request: ticks and moves of the worker, each possible in its turn. */
  ghost predicate Schedule(s: State, actions: seq<Action>)
    decreases |actions|
  {
    actions == [] ||
    (!actions[0].Push? && !actions[0].Stop? && Enabled(s, actions[0]) &&
     Schedule(Step(s, actions[0]), actions[1..]))
  }

  ghost function After(s: State, actions: seq<Action>): State
    requires Schedule(s, actions)
    decreases |actions|
  {
    if actions == [] then s else After(Step(s, actions[0]), actions[1..])
  }

  ghost function WorkerMoves(actions: seq<Action>): nat {
    if actions == [] then 0 else (if actions[0].Tick? then 0 else 1) + WorkerMoves(actions[1..])
  }

  lemma {:induction false} ScheduledStep(s: State, a: Action)
    requires Invariant(s) && s.stopping && Enabled(s, a) && !a.Push? && !a.Stop?
    ensures var t := Step(s, a);
            Invariant(t) && t.stopping && t.accepted == s.accepted && t.late == s.late &&
            WorkLeft(t) + (if a.Tick? then 0 else 1) <= WorkLeft(s)
  {
    StepKeepsInvariant(s, a);
    if a.Tick? {
      TicksAddNoWork(s);
    } else {
      StopMakesProgress(s);
    }
  }

  lemma {:induction false} MovesUseUpWork(s: State, actions: seq<Action>)
    requires Invariant(s) && s.stopping && Schedule(s, actions)
    ensures var t := After(s, actions);
            Invariant(t) && t.stopping && t.accepted == s.accepted && t.late == s.late &&
            WorkLeft(t) + WorkerMoves(actions) <= WorkLeft(s)
    decreases |actions|
  {
    if actions != [] {
      ScheduledStep(s, actions[0]);
      MovesUseUpWork(Step(s, actions[0]), actions[1..]);
    }
  }

  /** Stop returns under every schedule: the worker cannot make more moves than there is work, has one
      to make as long as it has not finished, and by the time it has made as many it has finished with
      everything accepted exported, however many ticks came in between. */
  lemma {:induction false} EveryScheduleEnds(s: State, actions: seq<Action>)
    requires Invariant(s) && s.stopping && Schedule(s, actions)
    ensures WorkerMoves(actions) <= WorkLeft(s)
    ensures var t := After(s, actions);
            if t.worker == Finished then t.exported + s.late == s.accepted else Enabled(t, NextMove(t.worker))
    ensures WorkerMoves(actions) >= WorkLeft(s) ==> After(s, actions).worker == Finished
  {
    MovesUseUpWork(s, actions);
    var t := After(s, actions);
    if t.worker != Finished { StopMakesProgress(t); } else { AllExported(t); }
  }

  /** The worker's own moves from a stopping state, until it has finished. */
  ghost function Drain(s: State): State
    requires Invariant(s) && s.stopping
    decreases WorkLeft(s)
  {
    if s.worker == Finished then s
    else
      StopMakesProgress(s);
      StepKeepsInvariant(s, NextMove(s.worker));
      Drain(Step(s, NextMove(s.worker)))
  }

  /** The join in capture_queue_stop returns, with everything accepted delivered. */
  lemma {:induction false} StopReturns(s: State)
    requires Invariant(s) && s.stopping
    ensures Drain(s).worker == Finished && Drain(s).exported + s.late == s.accepted
    decreases WorkLeft(s)
  {
    if s.worker == Finished {
      AllExported(s);
    } else {
      var a := NextMove(s.worker);
      StopMakesProgress(s);
      ScheduledStep(s, a);
      StopReturns(Step(s, a));
    }
  }

  lemma {:induction false} AllExported(s: State)
    requires Invariant(s) && s.worker == Finished
    ensures s.exported + s.late == s.accepted
  {
    assert s.exported + [] == s.exported;
  }
}
