/** The delayed packet overview queue of the native exporter.  Packet events wait, in arrival order
    and within limits, so that later stack stages can still name their socket through a
    direct-mapped table of owner slots.

    Identities are abstract and injective; the slot is a modulo of an arbitrary hash, so that any
    collision can happen.  `events`, `observations` and `written` are the histories the theorems
    speak about. */
module Overview {
  import opened Packet
  import opened Wrappers

  /** A buffer instance, or an event without one, which is identified by its time instead. */
  datatype PacketId = Instance(key: nat, generation: nat) | Untracked(key: nat, at: nat)

  datatype Config = Config(
    hash: (PacketId, Direction) -> nat, slots: nat, window: nat, maxEvents: nat, maxBytes: nat)
  {
    ghost predicate Ok() {
      0 < slots && 0 < maxEvents
    }

    function Slot(id: PacketId, direction: Direction): (r: nat)
      requires 0 < slots
      ensures r < slots
    {
      hash(id, direction) % slots
    }
  }

  /** What an event says about its packet; a socket of zero means that it names none. */
  datatype Detail = Detail(ts: nat, id: PacketId, direction: Direction, socket: nat)

  /** A queued event: `arrival` numbers the events, `since` counts the observations before it. */
  datatype Pending = Pending(
    arrival: nat, ts: nat, id: PacketId, direction: Direction, socket: nat,
    flow: nat, local: nat, capacity: nat, since: nat)

  /** One owner slot. */
  datatype Owner = Owner(
    id: PacketId, direction: Direction, socket: nat, ts: nat, ambiguous: bool, collided: bool)

  datatype Observation = Observation(id: PacketId, direction: Direction, socket: nat)

  /** Where the socket of a written event came from. */
  datatype Source = OwnSocket | FromSlot | FromFlow | Unresolved | AmbiguousOwner


  /** A flow as the queue sees it. */
  datatype Flow = Flow(socket: nat, local: nat, ambiguous: bool)

  type Flows = map<nat, Flow>

  /** A written event: the socket it was given and why, and what was known then: the number of
      observations, its owner slot and its flow.  `atOnce` says that it never was in the queue. */
  datatype Written = Written(
    pending: Pending, socket: nat, source: Source, observed: nat,
    slot: Option<Owner>, known: Option<Flow>, atOnce: bool)

  function KnownFlow(flows: Flows, flow: nat): Option<Flow> {
    if flow in flows then Some(flows[flow]) else None
  }

  datatype State = State(
    queue: seq<Pending>, bytes: nat, owners: seq<Option<Owner>>, latest: nat,
    events: seq<Detail>, observations: seq<Observation>, written: seq<Written>)

  function Init(cfg: Config): State {
    State([], 0, seq(cfg.slots, _ => None), 0, [], [], [])
  }

  // ----- Writing one event

  predicate Same(o: Owner, id: PacketId, direction: Direction) {
    o.id == id && o.direction == direction
  }

  /** The slot holds something that cannot be used for this event. */
  predicate Unavailable(o: Option<Owner>, p: Pending) {
    o.Some? && (o.value.collided || !Same(o.value, p.id, p.direction))
  }

  /** The slot is about this event, within one window either way. */
  predicate Relevant(cfg: Config, o: Option<Owner>, p: Pending) {
    o.Some? && Same(o.value, p.id, p.direction) &&
    o.value.ts <= p.ts + cfg.window && p.ts <= o.value.ts + cfg.window
  }

  function Resolve(cfg: Config, o: Option<Owner>, flows: Flows, p: Pending): (nat, Source) {
    if p.socket != 0 then (p.socket, OwnSocket)
    else if Relevant(cfg, o, p) && o.value.ambiguous then (0, AmbiguousOwner)
    else if Relevant(cfg, o, p) && !Unavailable(o, p) && o.value.socket != 0 then (o.value.socket, FromSlot)
    else if !Unavailable(o, p) && p.flow in flows &&
            p.direction != UnknownDirection && p.local == flows[p.flow].local then
      if flows[p.flow].ambiguous then (0, AmbiguousOwner)
      else if flows[p.flow].socket != 0 then (flows[p.flow].socket, FromFlow)
      else (0, Unresolved)
    else (0, Unresolved)
  }

  /** native_packet_overview_flush_one */
  function FlushOne(cfg: Config, s: State, flows: Flows): State
    requires 0 < cfg.slots == |s.owners| && s.queue != [] && s.bytes >= s.queue[0].capacity
  {
    var p := s.queue[0];
    var slot := s.owners[cfg.Slot(p.id, p.direction)];
    var (socket, source) := Resolve(cfg, slot, flows, p);
    s.(queue := s.queue[1..], bytes := s.bytes - p.capacity,
       written := s.written + [Written(p, socket, source, |s.observations|, slot, KnownFlow(flows, p.flow), false)])
  }

  function Capacity(queue: seq<Pending>): nat {
    if queue == [] then 0 else queue[0].capacity + Capacity(queue[1..])
  }

  /** The shape every function below relies on. */
  ghost predicate Shape(cfg: Config, s: State) {
    0 < cfg.slots == |s.owners| && s.bytes == Capacity(s.queue)
  }

  predicate Due(cfg: Config, s: State, all: bool) {
    s.queue != [] && (all || (s.latest >= cfg.window && s.queue[0].ts <= s.latest - cfg.window))
  }

  function FlushLoop(cfg: Config, s: State, all: bool, flows: Flows): (t: State)
    requires Shape(cfg, s)
    ensures Shape(cfg, t) && t.owners == s.owners && t.observations == s.observations && t.events == s.events
    ensures all ==> t.queue == []
    decreases |s.queue|
  {
    if Due(cfg, s, all) then FlushLoop(cfg, FlushOne(cfg, s, flows), all, flows) else s
  }

  /** native_packet_overview_flush */
  function Flush(cfg: Config, s: State, ts: nat, all: bool, flows: Flows): (t: State)
    requires Shape(cfg, s)
    ensures Shape(cfg, t) && t.owners == s.owners && t.observations == s.observations && t.events == s.events
    ensures all ==> t.queue == []
  {
    FlushLoop(cfg, if ts > s.latest then s.(latest := ts) else s, all, flows)
  }

  // ----- Observing ownership

  predicate SlotPending(cfg: Config, queue: seq<Pending>, slot: nat)
    requires 0 < cfg.slots
  {
    exists i :: 0 <= i < |queue| && cfg.Slot(queue[i].id, queue[i].direction) == slot
  }

  /** Expire the slot of the packet unless a queued event still refers to it. */
  function ExpireSlot(cfg: Config, s: State, d: Detail, flows: Flows): (t: State)
    requires Shape(cfg, s)
    ensures Shape(cfg, t) && t.observations == s.observations
  {
    var slot := cfg.Slot(d.id, d.direction);
    var o := s.owners[slot];
    if o.Some? && d.ts > o.value.ts + cfg.window then
      var t := Flush(cfg, s, d.ts, false, flows);
      if SlotPending(cfg, t.queue, slot) then t else t.(owners := t.owners[slot := None])
    else s
  }

  function Later(ts: nat, o: Owner): Owner {
    if ts > o.ts then o.(ts := ts) else o
  }

  /** The slot after an event has named a socket for its packet: conflicts are kept, never evicted. */
  function Name(o: Option<Owner>, d: Detail): Owner {
    if o.None? then Later(d.ts, Owner(d.id, d.direction, d.socket, 0, false, false))
    else if !Same(o.value, d.id, d.direction) then Later(d.ts, o.value.(collided := true))
    else Later(d.ts, if o.value.socket != d.socket then o.value.(ambiguous := true) else o.value)
  }

  /** native_packet_overview_observe */
  function Observe(cfg: Config, s: State, d: Detail, flows: Flows): (t: State)
    requires Shape(cfg, s)
    ensures Shape(cfg, t)
  {
    if d.id.Untracked? then Flush(cfg, s, d.ts, false, flows)
    else
      var s1 := ExpireSlot(cfg, s, d, flows);
      if d.socket == 0 then Flush(cfg, s1, d.ts, false, flows)
      else Flush(cfg, Record(cfg, s1, d), d.ts, false, flows)
  }

  function Record(cfg: Config, s: State, d: Detail): (t: State)
    requires Shape(cfg, s)
    ensures Shape(cfg, t)
  {
    var slot := cfg.Slot(d.id, d.direction);
    s.(owners := s.owners[slot := Some(Name(s.owners[slot], d))],
       observations := s.observations + [Observation(d.id, d.direction, d.socket)])
  }

  // ----- Queueing

  predicate NoRoom(cfg: Config, s: State, capacity: nat) {
    s.queue != [] && (|s.queue| >= cfg.maxEvents || s.bytes + capacity > cfg.maxBytes)
  }

  function RoomLoop(cfg: Config, s: State, capacity: nat, flows: Flows): (t: State)
    requires Shape(cfg, s)
    ensures Shape(cfg, t) && !NoRoom(cfg, t, capacity)
    ensures t.owners == s.owners && t.observations == s.observations && t.events == s.events
    decreases |s.queue|
  {
    if NoRoom(cfg, s, capacity) then RoomLoop(cfg, FlushOne(cfg, s, flows), capacity, flows) else s
  }

  lemma {:induction false} CapacityAppend(queue: seq<Pending>, p: Pending)
    ensures Capacity(queue + [p]) == Capacity(queue) + p.capacity
  {
    if queue == [] {
      assert queue + [p] == [p];
    } else {
      CapacityAppend(queue[1..], p);
      assert (queue + [p])[1..] == queue[1..] + [p];
    }
  }

  /** An event that is written without having been queued. */
  function AtOnce(p: Pending, observed: nat): Written {
    Written(p, p.socket, if p.socket != 0 then OwnSocket else Unresolved, observed, None, None, true)
  }

  /** native_packet_overview_queue; `stored` says whether the queue entry can be allocated. */
  function Enqueue(
      cfg: Config, s: State, d: Detail, flow: nat, local: nat, capacity: nat, stored: bool, flows: Flows): (t: State)
    requires Shape(cfg, s)
    ensures Shape(cfg, t)
  {
    var s1 := RoomLoop(cfg, s, capacity, flows);
    var p := Pending(|s1.events|, d.ts, d.id, d.direction, d.socket, flow, local, capacity, |s1.observations|);
    if capacity > cfg.maxBytes || !stored then
      var s2 := Flush(cfg, s1, 0, true, flows);
      s2.(events := s2.events + [d],
          written := s2.written + [AtOnce(p, |s2.observations|)])
    else
      CapacityAppend(s1.queue, p);
      Flush(cfg, s1.(queue := s1.queue + [p], bytes := s1.bytes + capacity, events := s1.events + [d]),
            s1.latest, false, flows)
  }

  datatype Op =
    | ObserveOp(detail: Detail)
    | EnqueueOp(detail: Detail, flow: nat, local: nat, capacity: nat, stored: bool)
    | FlushOp(ts: nat, all: bool)

  function Step(cfg: Config, s: State, op: Op, flows: Flows): (t: State)
    requires Shape(cfg, s)
    ensures Shape(cfg, t)
  {
    match op
    case ObserveOp(d) => Observe(cfg, s, d, flows)
    case EnqueueOp(d, flow, local, capacity, stored) => Enqueue(cfg, s, d, flow, local, capacity, stored, flows)
    case FlushOp(ts, all) => Flush(cfg, s, ts, all, flows)
  }

  /** The state after any operations, each with the flow table of its time. */
  function Run(cfg: Config, ops: seq<(Op, Flows)>): (s: State)
    requires 0 < cfg.slots
    ensures Shape(cfg, s)
  {
    if ops == [] then Init(cfg)
    else Step(cfg, Run(cfg, ops[..|ops| - 1]), ops[|ops| - 1].0, ops[|ops| - 1].1)
  }
}
