/** The capture queue as the program has it: the byte ring, the two flags and the worker, proved to
    follow the protocol through every interleaving.  What the protocol delivers is thereby what comes
    out of the bytes, at every wrap position. */
module CaptureProgram {
  import opened QueueRecords
  import opened CaptureRing
  import opened CaptureQueue

  class Program {
    const ring: Ring
    var stopping: bool
    var tick: bool
    var worker: Worker
    var exported: seq<Record>
    var reportedLost: nat
    var reportedDropped: nat
    ghost var offered: seq<Record>
    ghost var accepted: seq<Record>
    ghost var late: seq<Record>

    ghost predicate Valid()
      reads this, ring, ring.data
    {
      ring.Holds()
    }

    ghost function Model(): State
      reads this, ring
    {
      State(ring.capacity, ring.pending, ring.dropped, ring.kernelLost, stopping, tick, worker,
            offered, accepted, late, exported, reportedLost, reportedDropped)
    }

    /** capture_queue_start */
    constructor (capacity: nat)
      requires 0 < capacity
      ensures Valid() && fresh(ring) && fresh(ring.data) && Model() == Run(capacity, [])
    {
      ring := new Ring(capacity);
      stopping, tick, worker := false, false, Ready;
      exported, reportedLost, reportedDropped := [], 0, 0;
      offered, accepted, late := [], [], [];
    }

    /** pthread_cond_signal */
    method Notify()
      modifies this`worker
      ensures worker == Signal(old(worker))
    {
      if worker.Waiting? {
        worker := Waiting(true);
      }
    }

    /** The locked part: the record goes into the ring or is counted as lost. */
    method PushLocked(r: Record) returns (signal: bool, ghost taken: bool)
      requires Valid() && r.Representable()
      modifies ring, ring.data
      ensures Valid() && taken == Accepts(ring.capacity, old(ring.pending), r)
      ensures taken <==> r.Size() <= 65536 && 16 + r.Size() <= ring.capacity - old(ring.used)
      ensures signal == (taken && old(ring.pending) == [])
      ensures Model() == if taken then old(Model()).(pending := old(ring.pending) + [r])
                         else old(Model()).(kernelLost := old(ring.kernelLost) + r.LostCount(),
                                            dropped := old(ring.dropped) + if r.Event? then 1 else 0)
    {
      signal, taken := ring.Push(r);
    }

    /** Note the offer in the history, and signal. */
    method Settle(r: Record, signal: bool, ghost taken: bool)
      requires Valid()
      modifies this`worker, this`offered, this`accepted, this`late
      ensures Valid()
      ensures Model() == old(Model()).(
                offered := old(offered) + [r],
                accepted := if taken then old(accepted) + [r] else old(accepted),
                late := if taken && IsLeaving(old(worker)) then old(late) + [r] else old(late),
                worker := if signal then Signal(old(worker)) else old(worker))
    {
      offered := offered + [r];
      accepted := if taken then accepted + [r] else accepted;
      late := if taken && IsLeaving(worker) then late + [r] else late;
      if signal {
        Notify();
      }
    }

    /** capture_queue_push */
    method PushRecord(r: Record)
      requires Valid() && r.Representable()
      modifies this`worker, this`offered, this`accepted, this`late, ring, ring.data
      ensures Valid() && Model() == PushStep(old(Model()), r)
      ensures accepted == if r.Size() <= 65536 && 16 + r.Size() <= ring.capacity - old(ring.used)
                          then old(accepted) + [r] else old(accepted)
    {
      ghost var taken: bool;
      var signal;
      signal, taken := PushLocked(r);
      Settle(r, signal, taken);
    }

    /** One critical section of capture_export_worker: wait, begin the periodic work, or copy the
        record at the front of the ring. */
    method TakeLock()
      requires Valid() && worker == Ready
      modifies this`worker, this`tick, ring
      ensures Valid() && Model() == Step(old(Model()), Lock)
    {
      ring.UsedByPending();
      if ring.used == 0 && !stopping && !tick {
        worker := Waiting(false);
      } else if ring.used == 0 {
        tick := false;
        worker := Ticking(stopping);
      } else {
        var r := ring.Take();
        worker := Exporting(r);
      }
    }

    /** What the worker does outside the lock. */
    method MoveOn()
      requires Valid() && (worker.Waiting? || worker.Exporting? || worker.Ticking?)
      modifies this`worker, this`exported, this`reportedLost, this`reportedDropped
      ensures Valid() && Model() == Step(old(Model()), NextMove(old(worker)))
    {
      match worker
      case Exporting(r) =>
        exported := exported + [r];
        worker := Ready;
      case Ticking(leaving) =>
        if leaving {
          reportedLost, reportedDropped := ring.kernelLost, ring.dropped;
          worker := Finished;
        } else {
          worker := Ready;
        }
      case Waiting(_) =>
        worker := Ready;
    }

    method RequestTick()
      requires Valid()
      modifies this`tick, this`worker
      ensures Valid() && Model() == Step(old(Model()), Tick)
    {
      tick := true;
      Notify();
    }

    /** capture_queue_stop, up to the join. */
    method RequestStop()
      requires Valid() && !stopping
      modifies this`stopping, this`worker
      ensures Valid() && Model() == Step(old(Model()), Stop)
    {
      stopping := true;
      Notify();
    }

    /** Any action, from a state of a run to the next state of that run. */
    method Perform(a: Action, ghost actions: seq<Action>)
      requires Valid() && Model() == Run(ring.capacity, actions)
      modifies this, ring, ring.data
      ensures Valid() && Model() == Run(ring.capacity, actions + [a])
    {
      assert (actions + [a])[..|actions + [a]| - 1] == actions;
      match a
      case Push(r) =>
        if worker != Finished && r.Representable() {
          PushRecord(r);
        }
      case Tick => RequestTick();
      case Stop =>
        if !stopping {
          RequestStop();
        }
      case Lock =>
        if worker == Ready {
          TakeLock();
        }
      case Wake =>
        if worker.Waiting? {
          MoveOn();
        }
      case Export =>
        if worker.Exporting? {
          MoveOn();
        }
      case AfterTick =>
        if worker.Ticking? {
          MoveOn();
        }
    }

    /** At every point of every run the records that came out of the bytes are the first ones accepted,
        whole and in order, and a worker asleep without a signal has an empty ring, no tick and no
        stop; once it has finished every loss is reported, and everything accepted came out if and only
        if nothing was pushed after it had found the stop request and an empty ring. */
    lemma {:induction false} BytesDeliver(actions: seq<Action>)
      requires Valid() && Model() == Run(ring.capacity, actions)
      ensures exported <= accepted
      ensures worker == Waiting(false) ==> ring.used == 0 && !tick && !stopping
      ensures worker == Finished ==>
                exported + late == accepted && (exported == accepted <==> late == []) &&
                CountEvents(offered) == CountEvents(accepted) + reportedDropped &&
                SumLost(offered) == SumLost(accepted) + reportedLost
    {
      DeliveryIsFifo(ring.capacity, actions, Model());
      EveryRunKeepsInvariant(ring.capacity, actions);
      ring.UsedByPending();
      if worker == Finished {
        StopDeliversEverything(ring.capacity, actions, Model());
      }
    }
  }

  /** The program from its start through any interleaving whatever. */
  method Execute(capacity: nat, actions: seq<Action>) returns (p: Program)
    requires 0 < capacity
    ensures p.Valid() && p.Model() == Run(capacity, actions)
    ensures p.exported <= p.accepted
    ensures p.worker == Finished ==> p.exported + p.late == p.accepted
  {
    p := new Program(capacity);
    for i := 0 to |actions|
      invariant fresh(p) && fresh(p.ring) && fresh(p.ring.data)
      invariant p.Valid() && p.ring.capacity == capacity && p.Model() == Run(capacity, actions[..i])
    {
      assert actions[..i + 1] == actions[..i] + [actions[i]];
      p.Perform(actions[i], actions[..i]);
    }
    assert actions[..|actions|] == actions;
    p.BytesDeliver(actions);
  }
}
