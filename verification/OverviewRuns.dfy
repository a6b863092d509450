/** Every run of the packet overview queue: each event is written once and in order, the limits
    hold, and a socket is taken from an owner slot only when nothing contradicted it. */
module OverviewRuns {
  import opened Wrappers
  import opened Overview

  /** Written and queued events, in this order, are all arrivals, each once. */
  ghost predicate InOrder(s: State) {
    |s.events| == |s.written| + |s.queue| &&
    (forall i :: 0 <= i < |s.written| ==> Holds(s.written[i].pending, i, s.events[i])) &&
    (forall i :: 0 <= i < |s.queue| ==> Holds(s.queue[i], |s.written| + i, s.events[|s.written| + i]))
  }

  /** The entry was made for the event `d`, the `i`-th to arrive. */
  ghost predicate Holds(p: Pending, i: nat, d: Detail) {
    p.arrival == i && p.ts == d.ts && p.id == d.id && p.direction == d.direction && p.socket == d.socket
  }

  ghost predicate WithinLimits(cfg: Config, s: State) {
    |s.queue| <= cfg.maxEvents && s.bytes <= cfg.maxBytes
  }

  ghost predicate Concerns(o: Observation, p: Pending) {
    o.id == p.id && o.direction == p.direction
  }

  /** What a slot must remember of an observation about an event that is still queued: the same
      socket or a conflict, and a collision if the slot belongs to another packet. */
  ghost predicate Remembers(slot: Option<Owner>, p: Pending, o: Observation) {
    slot.Some? &&
    if Same(slot.value, p.id, p.direction) then slot.value.ambiguous || slot.value.socket == o.socket
    else slot.value.collided
  }

  ghost predicate SlotsRemember(
      cfg: Config, queue: seq<Pending>, owners: seq<Option<Owner>>, observations: seq<Observation>)
    requires 0 < cfg.slots == |owners|
  {
    forall i, j :: 0 <= i < |queue| && queue[i].since <= j < |observations| && Concerns(observations[j], queue[i]) ==>
      Remembers(owners[cfg.Slot(queue[i].id, queue[i].direction)], queue[i], observations[j])
  }

  /** Every observation of this packet and direction between queueing and writing names `socket`. */
  ghost predicate Unanimous(w: Written, observations: seq<Observation>) {
    w.observed <= |observations| &&
    forall j :: w.pending.since <= j < w.observed && Concerns(observations[j], w.pending) ==>
      observations[j].socket == w.socket
  }

  /** Some observation of this very packet and direction, made before the writing, named `socket`. */
  ghost predicate Named(w: Written, observations: seq<Observation>) {
    w.observed <= |observations| &&
    Observation(w.pending.id, w.pending.direction, w.socket) in observations[..w.observed]
  }

  /** What a slot holds was observed. */
  ghost predicate SlotsNamed(owners: seq<Option<Owner>>, observations: seq<Observation>) {
    forall k :: 0 <= k < |owners| && owners[k].Some? ==>
      Observation(owners[k].value.id, owners[k].value.direction, owners[k].value.socket) in observations
  }

  ghost predicate WrittenSound(written: seq<Written>, observations: seq<Observation>) {
    forall i :: 0 <= i < |written| && written[i].source == FromSlot ==>
      written[i].socket != 0 && Unanimous(written[i], observations) && Named(written[i], observations)
  }

  ghost predicate Core(cfg: Config, s: State) {
    Shape(cfg, s) && InOrder(s) && WrittenSound(s.written, s.observations) &&
    SlotsRemember(cfg, s.queue, s.owners, s.observations) && SlotsNamed(s.owners, s.observations)
  }

  ghost predicate Invariant(cfg: Config, s: State) {
    Core(cfg, s) && WithinLimits(cfg, s)
  }

  // ----- Writing

  lemma {:induction false} FlushOneKeeps(cfg: Config, s: State, flows: Flows)
    requires Core(cfg, s) && s.queue != []
    ensures Core(cfg, FlushOne(cfg, s, flows))
  {
    var p := s.queue[0];
    var slot := s.owners[cfg.Slot(p.id, p.direction)];
    var (socket, source) := Resolve(cfg, slot, flows, p);
    var w := Written(p, socket, source, |s.observations|, slot, KnownFlow(flows, p.flow), false);
    if source == FromSlot {
      forall j | p.since <= j < |s.observations| && Concerns(s.observations[j], p)
        ensures s.observations[j].socket == socket
      {
        assert Remembers(slot, s.queue[0], s.observations[j]);
      }
      assert Unanimous(w, s.observations);
      assert s.observations[..|s.observations|] == s.observations;
      assert Named(w, s.observations);
    }
    var t := FlushOne(cfg, s, flows);
    assert forall i :: 0 <= i < |t.queue| ==> t.queue[i] == s.queue[i + 1];
    assert t.written == s.written + [w];
  }

  lemma {:induction false} FlushLoopKeeps(cfg: Config, s: State, all: bool, flows: Flows)
    requires Core(cfg, s)
    ensures Core(cfg, FlushLoop(cfg, s, all, flows))
    ensures |FlushLoop(cfg, s, all, flows).queue| <= |s.queue| && FlushLoop(cfg, s, all, flows).bytes <= s.bytes
    decreases |s.queue|
  {
    if Due(cfg, s, all) {
      FlushOneKeeps(cfg, s, flows);
      FlushLoopKeeps(cfg, FlushOne(cfg, s, flows), all, flows);
    }
  }

  lemma {:induction false} FlushKeeps(cfg: Config, s: State, ts: nat, all: bool, flows: Flows)
    requires Core(cfg, s)
    ensures var t := Flush(cfg, s, ts, all, flows);
            Core(cfg, t) && |t.queue| <= |s.queue| && t.bytes <= s.bytes
  {
    FlushLoopKeeps(cfg, if ts > s.latest then s.(latest := ts) else s, all, flows);
  }

  lemma {:induction false} RoomLoopKeeps(cfg: Config, s: State, capacity: nat, flows: Flows)
    requires Core(cfg, s)
    ensures var t := RoomLoop(cfg, s, capacity, flows);
            Core(cfg, t) && |t.queue| <= |s.queue| && t.bytes <= s.bytes
    decreases |s.queue|
  {
    if NoRoom(cfg, s, capacity) {
      FlushOneKeeps(cfg, s, flows);
      RoomLoopKeeps(cfg, FlushOne(cfg, s, flows), capacity, flows);
    }
  }

  // ----- Observing

  lemma {:induction false} ExpireSlotKeeps(cfg: Config, s: State, d: Detail, flows: Flows)
    requires Core(cfg, s)
    ensures var t := ExpireSlot(cfg, s, d, flows);
            Core(cfg, t) && |t.queue| <= |s.queue| && t.bytes <= s.bytes
  {
    FlushKeeps(cfg, s, d.ts, false, flows);
  }

  /** Naming a socket keeps everything the slot had to remember, and remembers the new name. */
  lemma {:induction false} NameRemembers(cfg: Config, slot: Option<Owner>, d: Detail, p: Pending, o: Observation)
    requires Concerns(o, p)
    ensures Remembers(slot, p, o) ==> Remembers(Some(Name(slot, d)), p, o)
    ensures o == Observation(d.id, d.direction, d.socket) ==> Remembers(Some(Name(slot, d)), p, o)
  {
  }

  lemma {:induction false} RecordKeeps(cfg: Config, s: State, d: Detail)
    requires Core(cfg, s)
    ensures Core(cfg, Record(cfg, s, d))
  {
    var t := Record(cfg, s, d);
    var o := Observation(d.id, d.direction, d.socket);
    var slot := cfg.Slot(d.id, d.direction);
    forall i, j | 0 <= i < |t.queue| && t.queue[i].since <= j < |t.observations| &&
                  Concerns(t.observations[j], t.queue[i])
      ensures Remembers(t.owners[cfg.Slot(t.queue[i].id, t.queue[i].direction)], t.queue[i], t.observations[j])
    {
      var p := s.queue[i];
      NameRemembers(cfg, s.owners[slot], d, p, t.observations[j]);
      if j < |s.observations| {
        assert Remembers(s.owners[cfg.Slot(p.id, p.direction)], s.queue[i], s.observations[j]);
      }
    }
    forall i | 0 <= i < |t.written| && t.written[i].source == FromSlot
      ensures t.written[i].socket != 0 && Unanimous(t.written[i], t.observations) && Named(t.written[i], t.observations)
    {
      assert Unanimous(s.written[i], s.observations) && Named(s.written[i], s.observations);
      assert t.observations[..s.written[i].observed] == s.observations[..s.written[i].observed];
    }
    RecordNames(cfg, s, d);
  }

  lemma {:induction false} RecordNames(cfg: Config, s: State, d: Detail)
    requires Shape(cfg, s) && SlotsNamed(s.owners, s.observations)
    ensures SlotsNamed(Record(cfg, s, d).owners, Record(cfg, s, d).observations)
  {
    var t := Record(cfg, s, d);
    forall k | 0 <= k < |t.owners| && t.owners[k].Some?
      ensures Observation(t.owners[k].value.id, t.owners[k].value.direction, t.owners[k].value.socket) in t.observations
    {
      var o := Observation(d.id, d.direction, d.socket);
      assert t.observations == s.observations + [o] && o == t.observations[|s.observations|];
      if s.owners[k].Some? {
        var was := s.owners[k].value;
        assert Observation(was.id, was.direction, was.socket) in s.observations;
      }
    }
  }

  lemma {:induction false} ObserveKeeps(cfg: Config, s: State, d: Detail, flows: Flows)
    requires Invariant(cfg, s)
    ensures Invariant(cfg, Observe(cfg, s, d, flows))
  {
    if d.id.Untracked? {
      FlushKeeps(cfg, s, d.ts, false, flows);
    } else {
      ExpireSlotKeeps(cfg, s, d, flows);
      var s1 := ExpireSlot(cfg, s, d, flows);
      RecordKeeps(cfg, s1, d);
      FlushKeeps(cfg, if d.socket == 0 then s1 else Record(cfg, s1, d), d.ts, false, flows);
    }
  }

  // ----- Queueing

  lemma {:induction false} AppendKeeps(cfg: Config, s: State, p: Pending, d: Detail)
    requires Core(cfg, s) && Holds(p, |s.events|, d) && p.since == |s.observations|
    ensures Core(cfg, s.(queue := s.queue + [p], bytes := s.bytes + p.capacity, events := s.events + [d]))
  {
    CapacityAppend(s.queue, p);
    var queue := s.queue + [p];
    forall i, j | 0 <= i < |queue| && queue[i].since <= j < |s.observations| && Concerns(s.observations[j], queue[i])
      ensures Remembers(s.owners[cfg.Slot(queue[i].id, queue[i].direction)], queue[i], s.observations[j])
    {
      assert queue[i] == s.queue[i];
    }
  }

  /** An event that cannot be queued is written at once, behind everything that was queued. */
  lemma {:induction false} BypassKeeps(cfg: Config, s: State, p: Pending, d: Detail)
    requires Core(cfg, s) && s.queue == [] && Holds(p, |s.events|, d)
    ensures Core(cfg, s.(events := s.events + [d],
                         written := s.written + [AtOnce(p, |s.observations|)]))
  {
  }

  lemma {:induction false} QueuedKeeps(cfg: Config, s: State, p: Pending, d: Detail, flows: Flows)
    requires Core(cfg, s) && Holds(p, |s.events|, d) && p.since == |s.observations|
    requires |s.queue| + 1 <= cfg.maxEvents && s.bytes + p.capacity <= cfg.maxBytes
    ensures Shape(cfg, s.(queue := s.queue + [p], bytes := s.bytes + p.capacity, events := s.events + [d]))
    ensures var t := s.(queue := s.queue + [p], bytes := s.bytes + p.capacity, events := s.events + [d]);
            Invariant(cfg, Flush(cfg, t, s.latest, false, flows))
  {
    AppendKeeps(cfg, s, p, d);
    FlushKeeps(cfg, s.(queue := s.queue + [p], bytes := s.bytes + p.capacity, events := s.events + [d]),
               s.latest, false, flows);
  }

  lemma {:induction false} BypassedKeeps(cfg: Config, s: State, p: Pending, d: Detail, flows: Flows)
    requires Invariant(cfg, s) && Holds(p, |s.events|, d)
    ensures var t := Flush(cfg, s, 0, true, flows);
            Invariant(cfg, t.(events := t.events + [d],
                              written := t.written + [AtOnce(p, |t.observations|)]))
  {
    FlushKeeps(cfg, s, 0, true, flows);
    BypassKeeps(cfg, Flush(cfg, s, 0, true, flows), p, d);
  }

  lemma {:induction false} EnqueueKeeps(
      cfg: Config, s: State, d: Detail, flow: nat, local: nat, capacity: nat, stored: bool, flows: Flows)
    requires cfg.Ok() && Invariant(cfg, s)
    ensures Invariant(cfg, Enqueue(cfg, s, d, flow, local, capacity, stored, flows))
  {
    RoomLoopKeeps(cfg, s, capacity, flows);
    var s1 := RoomLoop(cfg, s, capacity, flows);
    var p := Pending(|s1.events|, d.ts, d.id, d.direction, d.socket, flow, local, capacity, |s1.observations|);
    if capacity > cfg.maxBytes || !stored {
      BypassedKeeps(cfg, s1, p, d, flows);
    } else {
      QueuedKeeps(cfg, s1, p, d, flows);
    }
  }

  // ----- Whole runs

  lemma {:induction false} EveryRunKeepsInvariant(cfg: Config, ops: seq<(Op, Flows)>)
    requires cfg.Ok()
    ensures Invariant(cfg, Run(cfg, ops))
    decreases |ops|
  {
    if ops != [] {
      EveryRunKeepsInvariant(cfg, ops[..|ops| - 1]);
      var s := Run(cfg, ops[..|ops| - 1]);
      var flows := ops[|ops| - 1].1;
      match ops[|ops| - 1].0
      case ObserveOp(d) => ObserveKeeps(cfg, s, d, flows);
      case EnqueueOp(d, flow, local, capacity, stored) =>
        EnqueueKeeps(cfg, s, d, flow, local, capacity, stored, flows);
      case FlushOp(ts, all) => FlushKeeps(cfg, s, ts, all, flows);
    }
  }

  /** In every reachable state the events written so far are the first arrivals in order, none
      twice, the rest is queued within both limits, and after a final flush nothing is queued. */
  lemma {:induction false} WrittenOnceInOrder(cfg: Config, ops: seq<(Op, Flows)>, s: State)
    requires cfg.Ok() && s == Run(cfg, ops)
    ensures |s.written| + |s.queue| == |s.events|
    ensures forall i :: 0 <= i < |s.written| ==> Holds(s.written[i].pending, i, s.events[i])
    ensures forall i :: 0 <= i < |s.queue| ==> Holds(s.queue[i], |s.written| + i, s.events[|s.written| + i])
    ensures |s.queue| <= cfg.maxEvents && s.bytes == Capacity(s.queue) <= cfg.maxBytes
    ensures |ops| > 0 && ops[|ops| - 1].0.FlushOp? && ops[|ops| - 1].0.all ==> |s.written| == |s.events|
  {
    EveryRunKeepsInvariant(cfg, ops);
    ReadInvariant(cfg, s);
    if |ops| > 0 && ops[|ops| - 1].0.FlushOp? && ops[|ops| - 1].0.all {
      FinalFlushEmpties(cfg, ops);
    }
  }

  lemma {:induction false} ReadInvariant(cfg: Config, s: State)
    requires Invariant(cfg, s)
    ensures |s.written| + |s.queue| == |s.events|
    ensures forall i :: 0 <= i < |s.written| ==> Holds(s.written[i].pending, i, s.events[i])
    ensures forall i :: 0 <= i < |s.queue| ==> Holds(s.queue[i], |s.written| + i, s.events[|s.written| + i])
    ensures |s.queue| <= cfg.maxEvents && s.bytes == Capacity(s.queue) <= cfg.maxBytes
  {
  }

  lemma {:induction false} FinalFlushEmpties(cfg: Config, ops: seq<(Op, Flows)>)
    requires cfg.Ok() && |ops| > 0 && ops[|ops| - 1].0.FlushOp? && ops[|ops| - 1].0.all
    ensures Run(cfg, ops).queue == []
  {
    var last := ops[|ops| - 1];
    assert Run(cfg, ops) == Flush(cfg, Run(cfg, ops[..|ops| - 1]), last.0.ts, true, last.1);
  }

  /** A socket taken from an owner slot was named by an observation of that very packet and direction,
      and no observation made while the event was queued contradicted it. */
  lemma {:induction false} SlotNamesAreUnanimous(cfg: Config, ops: seq<(Op, Flows)>, s: State, i: nat)
    requires cfg.Ok() && s == Run(cfg, ops)
    requires i < |s.written| && s.written[i].source == FromSlot
    ensures var w := s.written[i];
            w.observed <= |s.observations| && w.socket != 0 &&
            Observation(w.pending.id, w.pending.direction, w.socket) in s.observations[..w.observed] &&
            forall j :: w.pending.since <= j < w.observed && s.observations[j].id == w.pending.id &&
                        s.observations[j].direction == w.pending.direction ==>
              s.observations[j].socket == w.socket
  {
    EveryRunKeepsInvariant(cfg, ops);
    assert Unanimous(s.written[i], s.observations) && Named(s.written[i], s.observations);
    forall j | s.written[i].pending.since <= j < s.written[i].observed
      ensures Concerns(s.observations[j], s.written[i].pending) ==> s.observations[j].socket == s.written[i].socket
      ensures s.observations[j].id == s.written[i].pending.id &&
              s.observations[j].direction == s.written[i].pending.direction ==>
                Concerns(s.observations[j], s.written[i].pending)
    {
    }
  }
}
