/** What the packet overview queue writes: which socket each event is given, when events leave the queue,
    and what an observation leaves in an owner slot. */
module OverviewWrites {
  import opened Packet
  import opened Wrappers
  import opened Overview
  import opened OverviewRuns

  // ----- Which socket an event is given

  /** The slot is about this packet and direction, within one window either way. */
  ghost predicate SlotApplies(cfg: Config, w: Written) {
    w.slot.Some? && w.slot.value.id == w.pending.id && w.slot.value.direction == w.pending.direction &&
    w.slot.value.ts <= w.pending.ts + cfg.window && w.pending.ts <= w.slot.value.ts + cfg.window
  }

  /** The slot does not speak against using other evidence: it is free, or it belongs to this packet and
      direction alone. */
  ghost predicate SlotUsable(w: Written) {
    w.slot.Some? ==>
      !w.slot.value.collided && w.slot.value.id == w.pending.id && w.slot.value.direction == w.pending.direction
  }

  ghost predicate SlotAmbiguous(cfg: Config, w: Written) {
    SlotApplies(cfg, w) && w.slot.value.ambiguous
  }

  ghost predicate SlotNames(cfg: Config, w: Written) {
    SlotApplies(cfg, w) && !w.slot.value.ambiguous && !w.slot.value.collided && w.slot.value.socket != 0
  }

  /** The flow has the event's local endpoint, and the direction is known. */
  ghost predicate FlowApplies(cfg: Config, w: Written) {
    !SlotAmbiguous(cfg, w) && !SlotNames(cfg, w) && SlotUsable(w) && w.known.Some? &&
    w.pending.direction != UnknownDirection && w.pending.local == w.known.value.local
  }

  /** Exactly when a written event has which socket and for which reason. */
  ghost predicate Told(cfg: Config, w: Written) {
    var p := w.pending;
    (w.source == OwnSocket <==> p.socket != 0) &&
    (w.source == FromSlot <==> p.socket == 0 && !w.atOnce && SlotNames(cfg, w)) &&
    (w.source == FromFlow <==>
       p.socket == 0 && !w.atOnce && FlowApplies(cfg, w) && !w.known.value.ambiguous && w.known.value.socket != 0) &&
    (w.source == AmbiguousOwner <==>
       p.socket == 0 && !w.atOnce &&
       (SlotAmbiguous(cfg, w) || (FlowApplies(cfg, w) && w.known.value.ambiguous))) &&
    (w.source == OwnSocket ==> w.socket == p.socket) &&
    (w.source == FromSlot ==> w.socket == w.slot.value.socket) &&
    (w.source == FromFlow ==> w.socket == w.known.value.socket) &&
    (w.source == AmbiguousOwner || w.source == Unresolved ==> w.socket == 0)
  }

  ghost predicate AllTold(cfg: Config, written: seq<Written>) {
    forall i :: 0 <= i < |written| ==> Told(cfg, written[i])
  }

  /** Writing the head of the queue records its slot and flow as they are, and is told by them. */
  lemma {:induction false} HeadIsTold(cfg: Config, s: State, flows: Flows)
    requires 0 < cfg.slots == |s.owners| && s.queue != [] && s.bytes >= s.queue[0].capacity
    ensures var t, p := FlushOne(cfg, s, flows), s.queue[0];
            |t.written| == |s.written| + 1 && t.written[..|s.written|] == s.written &&
            var w := t.written[|s.written|];
            w.pending == p && !w.atOnce && w.observed == |s.observations| &&
            w.slot == s.owners[cfg.Slot(p.id, p.direction)] &&
            w.known == (if p.flow in flows then Some(flows[p.flow]) else None) && Told(cfg, w)
  {
  }

  lemma {:induction false} FlushOneTells(cfg: Config, s: State, flows: Flows)
    requires Shape(cfg, s) && s.queue != [] && AllTold(cfg, s.written)
    ensures AllTold(cfg, FlushOne(cfg, s, flows).written)
  {
    HeadIsTold(cfg, s, flows);
    var t := FlushOne(cfg, s, flows);
    forall i | 0 <= i < |t.written| ensures Told(cfg, t.written[i]) {
      if i < |s.written| { assert t.written[i] == s.written[i]; }
    }
  }

  lemma {:induction false} FlushLoopTells(cfg: Config, s: State, all: bool, flows: Flows)
    requires Shape(cfg, s) && AllTold(cfg, s.written)
    ensures AllTold(cfg, FlushLoop(cfg, s, all, flows).written)
    decreases |s.queue|
  {
    if Due(cfg, s, all) {
      FlushOneTells(cfg, s, flows);
      FlushLoopTells(cfg, FlushOne(cfg, s, flows), all, flows);
    }
  }

  lemma {:induction false} FlushTells(cfg: Config, s: State, ts: nat, all: bool, flows: Flows)
    requires Shape(cfg, s) && AllTold(cfg, s.written)
    ensures AllTold(cfg, Flush(cfg, s, ts, all, flows).written)
  {
    FlushLoopTells(cfg, if ts > s.latest then s.(latest := ts) else s, all, flows);
  }

  lemma {:induction false} RoomLoopTells(cfg: Config, s: State, capacity: nat, flows: Flows)
    requires Shape(cfg, s) && AllTold(cfg, s.written)
    ensures AllTold(cfg, RoomLoop(cfg, s, capacity, flows).written)
    decreases |s.queue|
  {
    if NoRoom(cfg, s, capacity) {
      FlushOneTells(cfg, s, flows);
      RoomLoopTells(cfg, FlushOne(cfg, s, flows), capacity, flows);
    }
  }

  lemma {:induction false} ObserveTells(cfg: Config, s: State, d: Detail, flows: Flows)
    requires Shape(cfg, s) && AllTold(cfg, s.written)
    ensures AllTold(cfg, Observe(cfg, s, d, flows).written)
  {
    FlushTells(cfg, s, d.ts, false, flows);
    if d.id.Instance? {
      var s1 := ExpireSlot(cfg, s, d, flows);
      FlushTells(cfg, if d.socket == 0 then s1 else Record(cfg, s1, d), d.ts, false, flows);
    }
  }

  lemma {:induction false} EnqueueTells(
      cfg: Config, s: State, d: Detail, flow: nat, local: nat, capacity: nat, stored: bool, flows: Flows)
    requires Shape(cfg, s) && AllTold(cfg, s.written)
    ensures AllTold(cfg, Enqueue(cfg, s, d, flow, local, capacity, stored, flows).written)
  {
    RoomLoopTells(cfg, s, capacity, flows);
    var s1 := RoomLoop(cfg, s, capacity, flows);
    var p := Pending(|s1.events|, d.ts, d.id, d.direction, d.socket, flow, local, capacity, |s1.observations|);
    if capacity > cfg.maxBytes || !stored {
      FlushTells(cfg, s1, 0, true, flows);
      assert Told(cfg, AtOnce(p, |Flush(cfg, s1, 0, true, flows).observations|));
    } else {
      CapacityAppend(s1.queue, p);
      FlushTells(cfg, s1.(queue := s1.queue + [p], bytes := s1.bytes + capacity, events := s1.events + [d]),
                 s1.latest, false, flows);
    }
  }

  /** In every run every written event has exactly the socket that it named itself, or else that its
      slot and its flow allow. */
  lemma {:induction false} EveryWriteIsTold(cfg: Config, ops: seq<(Op, Flows)>)
    requires 0 < cfg.slots
    ensures AllTold(cfg, Run(cfg, ops).written)
    decreases |ops|
  {
    if ops != [] {
      EveryWriteIsTold(cfg, ops[..|ops| - 1]);
      var s, flows := Run(cfg, ops[..|ops| - 1]), ops[|ops| - 1].1;
      match ops[|ops| - 1].0
      case ObserveOp(d) => ObserveTells(cfg, s, d, flows);
      case EnqueueOp(d, flow, local, capacity, stored) =>
        EnqueueTells(cfg, s, d, flow, local, capacity, stored, flows);
      case FlushOp(ts, all) => FlushTells(cfg, s, ts, all, flows);
    }
  }

  // ----- When events leave the queue

  /** The first `k` events of the queue were written, in order, and are gone from it. */
  ghost predicate WroteFirst(s: State, t: State, k: nat) {
    k <= |s.queue| && t.queue == s.queue[k..] && |t.written| == |s.written| + k &&
    forall i :: 0 <= i < k ==> t.written[|s.written| + i].pending == s.queue[i]
  }

  lemma {:induction false} WroteOneMore(cfg: Config, s: State, t: State, k: nat, flows: Flows)
    requires Shape(cfg, s) && s.queue != [] && WroteFirst(FlushOne(cfg, s, flows), t, k)
    requires FlushOne(cfg, s, flows).written <= t.written
    ensures WroteFirst(s, t, k + 1)
  {
    var u := FlushOne(cfg, s, flows);
    assert u.queue[k..] == s.queue[k + 1..];
    forall i | 0 <= i < k + 1 ensures t.written[|s.written| + i].pending == s.queue[i] {
      if i == 0 {
        assert t.written[|s.written|] == u.written[|s.written|];
      } else {
        assert t.written[|u.written| + (i - 1)].pending == u.queue[i - 1];
      }
    }
  }

  /** The event is a whole window older than the latest time. */
  ghost predicate IsDue(cfg: Config, latest: nat, p: Pending) {
    p.ts + cfg.window <= latest
  }

  lemma {:induction false} FlushLoopExactly(cfg: Config, s: State, all: bool, flows: Flows) returns (k: nat)
    requires Shape(cfg, s)
    ensures var t := FlushLoop(cfg, s, all, flows);
            t.latest == s.latest && s.written <= t.written && WroteFirst(s, t, k) &&
            (forall i :: 0 <= i < k ==> all || IsDue(cfg, s.latest, s.queue[i])) &&
            (k < |s.queue| ==> !all && !IsDue(cfg, s.latest, s.queue[k]))
    decreases |s.queue|
  {
    if Due(cfg, s, all) {
      var u := FlushOne(cfg, s, flows);
      k := FlushLoopExactly(cfg, u, all, flows);
      WroteOneMore(cfg, s, FlushLoop(cfg, u, all, flows), k, flows);
      forall i | 0 <= i < k + 1 ensures all || IsDue(cfg, s.latest, s.queue[i]) {
        if i > 0 { assert s.queue[i] == u.queue[i - 1]; }
      }
      k := k + 1;
    } else {
      k := 0;
      assert s.queue[0..] == s.queue;
    }
  }

  /** A flush writes the events at the front that are due, up to the first that is not, or all. */
  lemma {:induction false} FlushExactly(cfg: Config, s: State, ts: nat, all: bool, flows: Flows) returns (k: nat)
    requires Shape(cfg, s)
    ensures var t, latest := Flush(cfg, s, ts, all, flows), if ts > s.latest then ts else s.latest;
            t.latest == latest && s.written <= t.written && WroteFirst(s, t, k) &&
            (forall i :: 0 <= i < k ==> all || IsDue(cfg, latest, s.queue[i])) &&
            (k < |s.queue| ==> !all && !IsDue(cfg, latest, s.queue[k]))
  {
    k := FlushLoopExactly(cfg, if ts > s.latest then s.(latest := ts) else s, all, flows);
  }

  /** There is room for one more event behind these. */
  ghost predicate HasRoom(cfg: Config, queue: seq<Pending>, capacity: nat) {
    queue == [] || (|queue| < cfg.maxEvents && Capacity(queue) + capacity <= cfg.maxBytes)
  }

  /** Making room writes the oldest events, as few as it takes. */
  lemma {:induction false} RoomExactly(cfg: Config, s: State, capacity: nat, flows: Flows) returns (k: nat)
    requires Shape(cfg, s)
    ensures var t := RoomLoop(cfg, s, capacity, flows);
            s.written <= t.written && WroteFirst(s, t, k) && HasRoom(cfg, t.queue, capacity) &&
            forall i :: 0 <= i < k ==> !HasRoom(cfg, s.queue[i..], capacity)
    decreases |s.queue|
  {
    if NoRoom(cfg, s, capacity) {
      var u := FlushOne(cfg, s, flows);
      k := RoomExactly(cfg, u, capacity, flows);
      WroteOneMore(cfg, s, RoomLoop(cfg, u, capacity, flows), k, flows);
      forall i | 0 <= i < k + 1 ensures !HasRoom(cfg, s.queue[i..], capacity) {
        assert s.queue[0..] == s.queue && (i > 0 ==> s.queue[i..] == u.queue[i - 1..]);
      }
      k := k + 1;
    } else {
      k := 0;
      assert s.queue[0..] == s.queue;
    }
  }

  lemma {:induction false} LastIsFromQueue(cfg: Config, s: State, all: bool, flows: Flows)
    requires Shape(cfg, s) && s.queue != []
    ensures var t, p := FlushLoop(cfg, s, all, flows), s.queue[|s.queue| - 1];
            if t.queue != [] then t.queue[|t.queue| - 1] == p
            else t.written != [] && t.written[|t.written| - 1].pending == p && !t.written[|t.written| - 1].atOnce
    decreases |s.queue|
  {
    if Due(cfg, s, all) {
      var u := FlushOne(cfg, s, flows);
      if u.queue != [] {
        LastIsFromQueue(cfg, u, all, flows);
      } else {
        assert FlushLoop(cfg, u, all, flows) == u;
      }
    }
  }

  /** An event goes to the end of the queue, with its own time, packet, direction, socket, flow and local
      endpoint, and is written from there; only an event that is too large or gets no memory is
      written at once, behind everything that was queued. */
  lemma {:induction false} EnqueueExactly(
      cfg: Config, s: State, d: Detail, flow: nat, local: nat, capacity: nat, stored: bool, flows: Flows)
    requires Shape(cfg, s)
    ensures var t := Enqueue(cfg, s, d, flow, local, capacity, stored, flows);
            var last := if t.queue != [] then t.queue[|t.queue| - 1]
                        else if t.written != [] then t.written[|t.written| - 1].pending
                        else Pending(0, 0, d.id, d.direction, 0, 0, 0, 0, 0);
            t.events == s.events + [d] && last.arrival == |s.events| && last.ts == d.ts && last.id == d.id &&
            last.direction == d.direction && last.socket == d.socket && last.flow == flow && last.local == local &&
            last.capacity == capacity && last.since == |s.observations| &&
            (t.queue == [] ==>
               t.written != [] &&
               (t.written[|t.written| - 1].atOnce <==> capacity > cfg.maxBytes || !stored)) &&
            (capacity > cfg.maxBytes || !stored ==> t.queue == [])
  {
    var s1 := RoomLoop(cfg, s, capacity, flows);
    var p := Pending(|s1.events|, d.ts, d.id, d.direction, d.socket, flow, local, capacity, |s1.observations|);
    if !(capacity > cfg.maxBytes || !stored) {
      CapacityAppend(s1.queue, p);
      var s2 := s1.(queue := s1.queue + [p], bytes := s1.bytes + capacity, events := s1.events + [d]);
      LastIsFromQueue(cfg, s2, false, flows);
    }
  }

  /** The events written between two points of the log, in terms of the queue they came from. */
  ghost predicate Wrote(queue: seq<Pending>, before: seq<Written>, after: seq<Written>, k: nat) {
    k <= |queue| && before <= after && |after| == |before| + k &&
    forall i :: 0 <= i < k ==> after[|before| + i].pending == queue[i]
  }

  lemma {:induction false} WroteBoth(
      queue: seq<Pending>, a: seq<Written>, b: seq<Written>, c: seq<Written>, j: nat, m: nat)
    requires Wrote(queue, a, b, j) && Wrote(queue[j..], b, c, m)
    ensures Wrote(queue, a, c, j + m)
  {
    forall i | 0 <= i < j + m ensures c[|a| + i].pending == queue[i] {
      if i < j {
        assert c[|a| + i] == b[|a| + i];
      } else {
        assert c[|b| + (i - j)].pending == queue[j..][i - j];
      }
    }
  }

  /** The first event that is not due, and all behind it, stay; those before it go. */
  ghost predicate UpToDue(cfg: Config, latest: nat, queue: seq<Pending>, j: nat, k: nat) {
    j <= k <= |queue| && (forall i :: j <= i < k ==> IsDue(cfg, latest, queue[i])) &&
    (k < |queue| ==> !IsDue(cfg, latest, queue[k]))
  }

  lemma {:induction false} DueBehind(cfg: Config, latest: nat, queue: seq<Pending>, i: nat, j: nat, m: nat)
    requires i <= j <= |queue| && UpToDue(cfg, latest, queue[j..], 0, m)
    requires forall n :: i <= n < j ==> IsDue(cfg, latest, queue[n])
    ensures UpToDue(cfg, latest, queue, i, j + m) && queue[j..][m..] == queue[j + m..]
  {
    forall n | i <= n < j + m ensures IsDue(cfg, latest, queue[n]) {
      if n >= j { assert queue[n] == queue[j..][n - j]; }
    }
    if j + m < |queue| { assert queue[j + m] == queue[j..][m]; }
  }

  lemma {:induction false} FlushWrites(cfg: Config, s: State, ts: nat, flows: Flows) returns (k: nat)
    requires Shape(cfg, s)
    ensures var t, latest := Flush(cfg, s, ts, false, flows), if ts > s.latest then ts else s.latest;
            t.latest == latest && Wrote(s.queue, s.written, t.written, k) && t.queue == s.queue[k..] &&
            UpToDue(cfg, latest, s.queue, 0, k)
  {
    k := FlushExactly(cfg, s, ts, false, flows);
  }

  /** Without its `j` oldest events, and no fewer, the queue leaves room. */
  ghost predicate FewestForRoom(cfg: Config, queue: seq<Pending>, capacity: nat, j: nat) {
    j <= |queue| && HasRoom(cfg, queue[j..], capacity) &&
    forall i :: 0 <= i < j ==> !HasRoom(cfg, queue[i..], capacity)
  }

  lemma {:induction false} RoomWrites(cfg: Config, s: State, capacity: nat, flows: Flows) returns (j: nat)
    requires Shape(cfg, s)
    ensures var t := RoomLoop(cfg, s, capacity, flows);
            t.latest == s.latest && Wrote(s.queue, s.written, t.written, j) && t.queue == s.queue[j..] &&
            FewestForRoom(cfg, s.queue, capacity, j)
  {
    j := RoomExactly(cfg, s, capacity, flows);
    RoomKeepsLatest(cfg, s, capacity, flows);
  }

  lemma {:induction false} RoomKeepsLatest(cfg: Config, s: State, capacity: nat, flows: Flows)
    requires Shape(cfg, s)
    ensures RoomLoop(cfg, s, capacity, flows).latest == s.latest
    decreases |s.queue|
  {
    if NoRoom(cfg, s, capacity) { RoomKeepsLatest(cfg, FlushOne(cfg, s, flows), capacity, flows); }
  }

  lemma {:induction false} WroteInLonger(queue: seq<Pending>, p: Pending, a: seq<Written>, b: seq<Written>, j: nat)
    requires Wrote(queue, a, b, j)
    ensures Wrote(queue + [p], a, b, j) && (queue + [p])[j..] == queue[j..] + [p]
  {
  }

  /** The entry that an event gets. */
  ghost function EntryOf(s: State, d: Detail, flow: nat, local: nat, capacity: nat): Pending {
    Pending(|s.events|, d.ts, d.id, d.direction, d.socket, flow, local, capacity, |s.observations|)
  }

  lemma {:induction false} EnqueueFlushes(
      cfg: Config, s: State, d: Detail, flow: nat, local: nat, capacity: nat, flows: Flows) returns (v: State)
    requires Shape(cfg, s) && capacity <= cfg.maxBytes
    ensures var u := RoomLoop(cfg, s, capacity, flows);
            Shape(cfg, v) && v.queue == u.queue + [EntryOf(s, d, flow, local, capacity)] &&
            v.written == u.written && v.latest == u.latest &&
            Enqueue(cfg, s, d, flow, local, capacity, true, flows) == Flush(cfg, v, v.latest, false, flows)
  {
    var u, p := RoomLoop(cfg, s, capacity, flows), EntryOf(s, d, flow, local, capacity);
    CapacityAppend(u.queue, p);
    v := u.(queue := u.queue + [p], bytes := u.bytes + capacity, events := u.events + [d]);
  }

  /** What queueing an event writes: the fewest of the oldest events that leave room for it, and then
      those at the front that are due, the new one included. */
  lemma {:induction false} EnqueueWrites(
      cfg: Config, s: State, d: Detail, flow: nat, local: nat, capacity: nat, flows: Flows)
      returns (j: nat, k: nat)
    requires Shape(cfg, s) && capacity <= cfg.maxBytes
    ensures var t, queue := Enqueue(cfg, s, d, flow, local, capacity, true, flows),
                            s.queue + [EntryOf(s, d, flow, local, capacity)];
            Wrote(queue, s.written, t.written, k) && t.queue == queue[k..] && t.latest == s.latest &&
            FewestForRoom(cfg, s.queue, capacity, j) && UpToDue(cfg, s.latest, queue, j, k)
  {
    j := RoomWrites(cfg, s, capacity, flows);
    var w := RoomLoop(cfg, s, capacity, flows).written;
    var p := EntryOf(s, d, flow, local, capacity);
    var queue := s.queue + [p];
    WroteInLonger(s.queue, p, s.written, w, j);
    var v := EnqueueFlushes(cfg, s, d, flow, local, capacity, flows);
    var m := FlushWrites(cfg, v, v.latest, flows);
    WroteBoth(queue, s.written, w, Flush(cfg, v, v.latest, false, flows).written, j, m);
    DueBehind(cfg, s.latest, queue, j, j, m);
    k := j + m;
  }

  lemma {:induction false} FlushAllWrites(cfg: Config, s: State, flows: Flows)
    requires Shape(cfg, s)
    ensures var t := Flush(cfg, s, 0, true, flows);
            t.latest == s.latest && t.queue == [] && Wrote(s.queue, s.written, t.written, |s.queue|)
  {
    var m := FlushExactly(cfg, s, 0, true, flows);
  }

  /** An event that cannot be queued is written at once, behind everything in the queue. */
  lemma {:induction false} RefusedWrites(
      cfg: Config, s: State, d: Detail, flow: nat, local: nat, capacity: nat, stored: bool, flows: Flows)
    requires Shape(cfg, s) && (capacity > cfg.maxBytes || !stored)
    ensures var t, queue := Enqueue(cfg, s, d, flow, local, capacity, stored, flows),
                            s.queue + [EntryOf(s, d, flow, local, capacity)];
            t.queue == [] && t.latest == s.latest && Wrote(queue, s.written, t.written, |queue|)
  {
    var j := RoomWrites(cfg, s, capacity, flows);
    var u, p := RoomLoop(cfg, s, capacity, flows), EntryOf(s, d, flow, local, capacity);
    FlushAllWrites(cfg, u, flows);
    var v := Flush(cfg, u, 0, true, flows);
    WroteBoth(s.queue, s.written, u.written, v.written, j, |u.queue|);
    WroteInLonger(s.queue, p, s.written, v.written, |s.queue|);
    OneMoreWritten(s.queue, p, s.written, v.written, AtOnce(p, |v.observations|));
  }

  lemma {:induction false} OneMoreWritten(
      queue: seq<Pending>, p: Pending, a: seq<Written>, b: seq<Written>, w: Written)
    requires Wrote(queue, a, b, |queue|) && w.pending == p
    ensures Wrote(queue + [p], a, b + [w], |queue| + 1)
  {
  }

  lemma {:induction false} ExpireWrites(cfg: Config, s: State, d: Detail, flows: Flows) returns (j: nat)
    requires Shape(cfg, s)
    ensures var t, latest := ExpireSlot(cfg, s, d, flows), if d.ts > s.latest then d.ts else s.latest;
            t.latest in {s.latest, latest} && t.events == s.events &&
            Wrote(s.queue, s.written, t.written, j) && t.queue == s.queue[j..] &&
            forall i :: 0 <= i < j ==> IsDue(cfg, latest, s.queue[i])
  {
    var o := s.owners[cfg.Slot(d.id, d.direction)];
    if o.Some? && d.ts > o.value.ts + cfg.window {
      j := FlushWrites(cfg, s, d.ts, flows);
    } else {
      j := 0;
      assert s.queue[0..] == s.queue;
    }
  }

  /** What an observation writes: the events at the front that its time makes due, and no others. */
  lemma {:induction false} ObserveWrites(cfg: Config, s: State, d: Detail, flows: Flows) returns (k: nat)
    requires Shape(cfg, s)
    ensures var t, latest := Observe(cfg, s, d, flows), if d.ts > s.latest then d.ts else s.latest;
            t.latest == latest && t.events == s.events && Wrote(s.queue, s.written, t.written, k) &&
            t.queue == s.queue[k..] && UpToDue(cfg, latest, s.queue, 0, k)
  {
    if d.id.Untracked? {
      k := FlushWrites(cfg, s, d.ts, flows);
    } else {
      var j := ExpireWrites(cfg, s, d, flows);
      var s1 := ExpireSlot(cfg, s, d, flows);
      var s2 := if d.socket == 0 then s1 else Record(cfg, s1, d);
      var m := FlushWrites(cfg, s2, d.ts, flows);
      WroteBoth(s.queue, s.written, s1.written, Flush(cfg, s2, d.ts, false, flows).written, j, m);
      DueBehind(cfg, if d.ts > s.latest then d.ts else s.latest, s.queue, 0, j, m);
      k := j + m;
    }
  }

  // ----- What an observation leaves in its slot

  /** The slot is more than one window older than the event. */
  ghost predicate Outdated(cfg: Config, o: Option<Owner>, d: Detail) {
    o.Some? && d.ts > o.value.ts + cfg.window
  }

  /** The slot of an observed packet: an outdated one is given up unless a queued event still refers to
      it; a name fills a free slot, and otherwise is kept, contradicts or collides, and is never
      forgotten; all other slots stay. */
  lemma {:induction false} ObserveExactly(cfg: Config, s: State, d: Detail, flows: Flows)
    requires Shape(cfg, s) && d.id.Instance?
    ensures var t, k := Observe(cfg, s, d, flows), cfg.Slot(d.id, d.direction);
            var given := Outdated(cfg, s.owners[k], d) &&
                         !SlotPending(cfg, Flush(cfg, s, d.ts, false, flows).queue, k);
            var was, now := if given then None else s.owners[k], t.owners[k];
            |t.owners| == |s.owners| && (forall j :: 0 <= j < |s.owners| && j != k ==> t.owners[j] == s.owners[j]) &&
            (d.socket == 0 ==> now == was) &&
            (d.socket != 0 ==>
               now.Some? &&
               match was
               case None => now == Some(Owner(d.id, d.direction, d.socket, d.ts, false, false))
               case Some(o) =>
                 var same := o.id == d.id && o.direction == d.direction;
                 now.value.id == o.id && now.value.direction == o.direction && now.value.socket == o.socket &&
                 now.value.ts == (if d.ts > o.ts then d.ts else o.ts) &&
                 now.value.collided == (o.collided || !same) &&
                 now.value.ambiguous == (o.ambiguous || (same && o.socket != d.socket)))
  {
  }
}
