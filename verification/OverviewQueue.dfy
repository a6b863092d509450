/** The overview queue with its loops, proved equal to the machine of Overview.  The list of
    entries is a sequence field; the write to the trace is the `written` log. */
module OverviewQueue {
  import opened Wrappers
  import opened Overview

  class Queue {
    const cfg: Config
    var queue: seq<Pending>
    var bytes: nat
    var owners: seq<Option<Owner>>
    var latest: nat
    var events: seq<Detail>
    var observations: seq<Observation>
    var written: seq<Written>

    ghost predicate Valid()
      reads this
    {
      Shape(cfg, Model())
    }

    ghost function Model(): State
      reads this
    {
      State(queue, bytes, owners, latest, events, observations, written)
    }

    constructor (cfg: Config)
      requires 0 < cfg.slots
      ensures Valid() && this.cfg == cfg && Model() == Init(cfg)
    {
      this.cfg := cfg;
      queue, bytes, latest, events, observations, written := [], 0, 0, [], [], [];
      owners := seq(cfg.slots, _ => None);
    }

    /** native_packet_overview_flush_one */
    method WriteHead(flows: Flows)
      requires Valid() && queue != []
      modifies this
      ensures Valid() && Model() == FlushOne(cfg, old(Model()), flows)
    {
      var p := queue[0];
      bytes := bytes - p.capacity;
      var slot := owners[cfg.Slot(p.id, p.direction)];
      var (socket, source) := Resolve(cfg, slot, flows, p);
      written := written + [Written(p, socket, source, |observations|, slot, KnownFlow(flows, p.flow), false)];
      queue := queue[1..];
    }

    /** native_packet_overview_flush */
    method FlushDue(ts: nat, all: bool, flows: Flows)
      requires Valid()
      modifies this
      ensures Valid() && Model() == Flush(cfg, old(Model()), ts, all, flows)
    {
      if ts > latest {
        latest := ts;
      }
      ghost var start := Model();
      while queue != [] && (all || (latest >= cfg.window && queue[0].ts <= latest - cfg.window))
        invariant Valid()
        invariant FlushLoop(cfg, Model(), all, flows) == FlushLoop(cfg, start, all, flows)
        decreases |queue|
      {
        WriteHead(flows);
      }
    }

    /** native_packet_overview_slot_pending */
    method IsSlotPending(slot: nat) returns (r: bool)
      requires Valid()
      ensures r == SlotPending(cfg, queue, slot)
    {
      for i := 0 to |queue|
        invariant forall k :: 0 <= k < i ==> cfg.Slot(queue[k].id, queue[k].direction) != slot
      {
        if cfg.Slot(queue[i].id, queue[i].direction) == slot {
          return true;
        }
      }
      return false;
    }

    method ExpireOwner(d: Detail, flows: Flows)
      requires Valid()
      modifies this
      ensures Valid() && Model() == ExpireSlot(cfg, old(Model()), d, flows)
    {
      var slot := cfg.Slot(d.id, d.direction);
      var o := owners[slot];
      if o.Some? && d.ts > o.value.ts + cfg.window {
        FlushDue(d.ts, false, flows);
        var pending := IsSlotPending(slot);
        if !pending {
          owners := owners[slot := None];
        }
      }
    }

    /** native_packet_overview_observe */
    method ObserveDetail(d: Detail, flows: Flows)
      requires Valid()
      modifies this
      ensures Valid() && Model() == Observe(cfg, old(Model()), d, flows)
    {
      if d.id.Instance? {
        ExpireOwner(d, flows);
        if d.socket != 0 {
          var slot := cfg.Slot(d.id, d.direction);
          owners := owners[slot := Some(Name(owners[slot], d))];
          observations := observations + [Observation(d.id, d.direction, d.socket)];
        }
      }
      FlushDue(d.ts, false, flows);
    }

    method MakeRoom(capacity: nat, flows: Flows)
      requires Valid()
      modifies this
      ensures Valid() && Model() == RoomLoop(cfg, old(Model()), capacity, flows)
    {
      while queue != [] && (|queue| >= cfg.maxEvents || bytes + capacity > cfg.maxBytes)
        invariant Valid()
        invariant RoomLoop(cfg, Model(), capacity, flows) == RoomLoop(cfg, old(Model()), capacity, flows)
        decreases |queue|
      {
        WriteHead(flows);
      }
    }

    /** native_packet_overview_queue */
    method QueueEvent(d: Detail, flow: nat, local: nat, capacity: nat, stored: bool, flows: Flows)
      requires Valid()
      modifies this
      ensures Valid() && Model() == Enqueue(cfg, old(Model()), d, flow, local, capacity, stored, flows)
    {
      MakeRoom(capacity, flows);
      var p := Pending(|events|, d.ts, d.id, d.direction, d.socket, flow, local, capacity, |observations|);
      if capacity > cfg.maxBytes || !stored {
        FlushDue(0, true, flows);
        events := events + [d];
        written := written + [AtOnce(p, |observations|)];
      } else {
        CapacityAppend(queue, p);
        queue := queue + [p];
        bytes := bytes + capacity;
        events := events + [d];
        FlushDue(latest, false, flows);
      }
    }
  }
}
