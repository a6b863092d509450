/** The RX ownership gate as the program runs it: the linked list of PendingList, running totals
    and a direct-mapped owner table, each method proved equal to the machine of RxGate.
    `history` numbers the records fed; `log` stands for the emit callback and for the reasons
    behind the counters. */
module RxContext {
  import opened Packet
  import opened RxGate
  import opened PendingList
  import RxGateRuns

  class Gate {
    const l: Limits
    const queue: List
    var owners: seq<Owner>
    var watermark: nat
    var replayed: nat
    var expired: nat
    var capacityDropped: nat
    var unresolved: nat
    var history: seq<Event>
    var log: seq<Outcome>

    ghost predicate Sized()
      reads this`owners
    {
      l.Ok() && queue.l == l && |owners| == l.slots
    }

    ghost predicate Valid()
      reads this, queue, queue.repr
    {
      Sized() && queue.Valid()
    }

    ghost function Model(): State
      reads this, queue`entries
    {
      State(queue.entries, owners, watermark, replayed, expired, capacityDropped, unresolved, history, log)
    }

    constructor (l: Limits)
      requires l.Ok()
      ensures Valid() && this.l == l && Model() == Init(l) && fresh(queue) && queue.repr == {}
    {
      this.l := l;
      queue := new List(l);
      owners := seq(l.slots, _ => NO_OWNER);
      watermark, replayed, expired, capacityDropped, unresolved := 0, 0, 0, 0, 0;
      history, log := [], [];
    }

    /** Write one outcome to the log and bump its counter; the queue is not concerned. */
    method Tally(kind: Kind, arrival: nat, detail: Detail)
      requires queue.Linked()
      modifies this`log, this`replayed, this`expired, this`capacityDropped, this`unresolved
      ensures queue.Linked() && Model() == Record(old(Model()), kind, arrival, detail)
    {
      Count(kind, arrival, detail);
    }

    method Count(kind: Kind, arrival: nat, detail: Detail)
      modifies this`log, this`replayed, this`expired, this`capacityDropped, this`unresolved
      ensures Model() == Record(old(Model()), kind, arrival, detail)
    {
      log := log + [Outcome(arrival, kind, detail)];
      match kind
      case Passed =>
      case Replayed => replayed := replayed + 1;
      case Expired => expired := expired + 1;
      case CapacityDropped => capacityDropped := capacityDropped + 1;
      case Unresolved => unresolved := unresolved + 1;
    }

    /** Remove the oldest entry and count it under the given kind. */
    method DropOldest(kind: Kind)
      requires Valid() && queue.entries != []
      modifies this`log, this`replayed, this`expired, this`capacityDropped, this`unresolved, queue, queue.repr
      ensures Valid() && queue.repr == old(queue.repr) && Model() == DropHead(old(Model()), kind)
    {
      HeadEntry();
      var oldest := queue.head.entry;
      queue.RemoveOldest();
      Tally(kind, oldest.arrival, oldest.detail);
    }

    /** The entry at the head, as the ghost view sees it. */
    lemma {:induction false} HeadEntry()
      requires queue.Linked()
      ensures queue.head == null <==> queue.entries == []
      ensures queue.head != null ==> queue.head in queue.repr && queue.head.entry == queue.entries[0]
    {
      assert queue.head == queue.At(0);
    }

    /** rx_context_expire */
    method ExpireUntil(timestamp: nat)
      requires Valid()
      modifies this, queue, queue.repr
      ensures Valid() && queue.repr == old(queue.repr)
      ensures Model() == Expire(l, old(Model()), timestamp)
    {
      if timestamp > watermark {
        watermark := timestamp;
      }
      ghost var start := Model();
      ghost var now := start;
      HeadEntry();
      while queue.head != null && watermark >= queue.head.entry.detail.ts &&
            watermark - queue.head.entry.detail.ts > l.window
        invariant Valid() && queue.repr == old(queue.repr) && Model() == now
        invariant queue.head == null <==> now.list == []
        invariant queue.head != null ==> queue.head.entry == now.list[0]
        invariant ExpireLoop(l, now) == ExpireLoop(l, start)
        decreases |now.list|
      {
        DropOldest(Expired);
        now := DropHead(now, Expired);
        HeadEntry();
      }
    }

    /** Mark a quarantined record with the owner found for it, emit it and unlink it. */
    method ReplayEntry(prev: Pending?, entry: Pending, ghost i: nat, evidence: Owner)
      requires Sized() && queue.Linked() && queue.Totals()
      requires i < |queue.nodes| && queue.IsLink(prev, i) && entry == queue.nodes[i] && queue.tail == prev
      modifies this`log, this`replayed, this`expired, this`capacityDropped, this`unresolved, queue, queue.repr
      ensures Sized() && queue.Linked() && queue.Totals() && queue.nodes == Without(old(queue.nodes), i)
      ensures queue.repr == old(queue.repr) && queue.tail == prev
      ensures Model() == Drop(old(Model()), i, Replayed, Apply(old(queue.entries)[i].detail, evidence))
    {
      var marked := queue.Take(prev, entry, i, evidence);
      Tally(Replayed, marked.arrival, marked.detail);
    }

    /** In the middle of the replay loop: the tail stands at the last node passed. */
    ghost predicate Scanning(prev: Pending?, i: nat)
      reads this, queue, queue.repr
    {
      Sized() && queue.Linked() && queue.Totals() && queue.IsLink(prev, i) && queue.tail == prev
    }

    /** One turn of the replay loop: unlink the node at `i` or step over it. */
    method ReplayTurn(prev: Pending?, entry: Pending, ghost i: nat, evidence: Owner)
      returns (prev': Pending?, ghost i': nat)
      requires Scanning(prev, i) && i < |queue.nodes| && entry == queue.nodes[i]
      modifies this`log, this`replayed, this`expired, this`capacityDropped, this`unresolved, queue, queue.repr
      ensures Scanning(prev', i') && queue.repr == old(queue.repr)
      ensures |queue.entries| - i' < |old(queue.entries)| - i
      ensures ReplayLoop(l, Model(), i', evidence) == ReplayLoop(l, old(Model()), i, evidence)
    {
      assert entry.entry == queue.entries[i];
      if Matches(l, entry.entry.detail, evidence) {
        ReplayEntry(prev, entry, i, evidence);
        prev', i' := prev, i;
      } else {
        queue.SetTail(entry);
        prev', i' := entry, i + 1;
      }
    }

    /** The replay loop, once the tail is cleared. */
    method ReplayAll(evidence: Owner)
      requires Scanning(null, 0)
      modifies this, queue, queue.repr
      ensures Valid() && queue.repr == old(queue.repr)
      ensures Model() == ReplayLoop(l, old(Model()), 0, evidence)
    {
      var prev: Pending? := null;
      ghost var i, repr, goal := 0, queue.repr, ReplayLoop(l, Model(), 0, evidence);
      var entry := queue.Follow(prev, 0);
      while entry != null
        invariant Scanning(prev, i) && queue.repr == repr && entry == queue.At(i)
        invariant ReplayLoop(l, Model(), i, evidence) == goal
        decreases |queue.entries| - i
      {
        prev, i := ReplayTurn(prev, entry, i, evidence);
        entry := queue.Follow(prev, i);
      }
    }

    /** The replay loop of rx_context_feed, which also rebuilds the tail. */
    method Replay(evidence: Owner)
      requires Valid()
      modifies this, queue, queue.repr
      ensures Valid() && queue.repr == old(queue.repr)
      ensures Model() == ReplayLoop(l, old(Model()), 0, evidence)
    {
      queue.SetTail(null);
      ReplayAll(evidence);
    }

    /** Make room for one more entry of the given size. */
    method Evict(allocation: nat)
      requires Valid() && allocation + l.ownersBytes <= l.maxBytes
      modifies this, queue, queue.repr
      ensures Valid() && queue.repr == old(queue.repr)
      ensures Model() == EvictLoop(l, old(Model()), allocation)
    {
      ghost var now := Model();
      while queue.count >= l.maxEvents || queue.bytes + allocation + l.ownersBytes > l.maxBytes
        invariant Valid() && queue.repr == old(queue.repr) && Model() == now
        invariant EvictLoop(l, now, allocation) == EvictLoop(l, old(Model()), allocation)
        decreases |now.list|
      {
        assert Full(l, now, allocation);
        DropOldest(CapacityDropped);
        now := DropHead(now, CapacityDropped);
      }
    }

    /** Direct evidence: remember it unless a later record of the same instance is held, then
        release every quarantined record it explains. */
    method TakeEvidence(d: Detail)
      requires Valid()
      modifies this, queue, queue.repr
      ensures Valid() && queue.repr == old(queue.repr)
      ensures Model() == FeedEvidence(l, old(Model()), d)
    {
      var evidence := EvidenceOf(d);
      var slot := Slot(l, d.key, d.generation);
      var held := owners[slot];
      if held.key != evidence.key || held.generation != evidence.generation ||
         held.timestamp <= evidence.timestamp {
        SetOwners(owners[slot := evidence]);
      }
      Replay(evidence);
    }

    method SetOwners(newOwners: seq<Owner>)
      requires Valid() && |newOwners| == |owners|
      modifies this`owners
      ensures Valid() && Model() == old(Model()).(owners := newOwners)
    {
      owners := newOwners;
    }

    /** A record without confirmed ownership: expire, refuse, release or quarantine it.  The watermark
        has been raised to the time of the record, so that the unsigned difference cannot wrap. */
    method TakePending(arrival: nat, e: Event, mallocOk: bool)
      requires Valid() && l.detailBytes <= e.size && RxGateRuns.StablySorted(queue.entries)
      requires e.detail.ts <= watermark
      modifies this, queue, queue.repr
      ensures Valid() && fresh(queue.repr - old(queue.repr))
      ensures Model() == FeedPending(l, old(Model()), arrival, e, mallocOk)
    {
      var d := e.detail;
      var allocation := l.Allocation(e.size);
      var owner := owners[Slot(l, d.key, d.generation)];
      if watermark - d.ts > l.window {
        Tally(Expired, arrival, d);
      } else if allocation + l.ownersBytes > l.maxBytes || !mallocOk {
        Tally(CapacityDropped, arrival, d);
      } else if Matches(l, d, owner) {
        Tally(Replayed, arrival, Apply(d, owner));
      } else {
        Quarantine(Entry(arrival, e.cpu, e.size, d));
      }
    }

    method Quarantine(entry: Entry)
      requires Valid() && RxGateRuns.StablySorted(queue.entries)
      requires l.Allocation(entry.size) + l.ownersBytes <= l.maxBytes
      modifies this, queue, queue.repr
      ensures Valid() && fresh(queue.repr - old(queue.repr))
      ensures Model() == Insert(EvictLoop(l, old(Model()), l.Allocation(entry.size)), entry)
    {
      RxGateRuns.EvictLoopSorted(l, Model(), l.Allocation(entry.size));
      Evict(l.Allocation(entry.size));
      queue.Add(entry);
    }

    /** Pass a record on, count it as unresolved, learn from it or hold it back. */
    method Dispatch(arrival: nat, e: Event, mallocOk: bool)
      requires Valid() && l.detailBytes <= e.size && RxGateRuns.StablySorted(queue.entries)
      requires e.detail.ts <= watermark
      modifies this, queue, queue.repr
      ensures Valid() && fresh(queue.repr - old(queue.repr))
      ensures Model() == DispatchStep(l, old(Model()), arrival, e, mallocOk)
    {
      var d := e.detail;
      if d.direction != Rx || d.key == 0 || d.generation == 0 {
        Tally(if d.ownerPending then Unresolved else Passed, arrival, d);
      } else if !d.ownerPending {
        if d.ownerEvidence == 1 && d.ownerValid && d.ownerSocketKey != 0 && d.ownerSocketGeneration != 0 {
          TakeEvidence(d);
        }
        Tally(Passed, arrival, d);
      } else {
        TakePending(arrival, e, mallocOk);
      }
    }

    /** Number the record about to be handled. */
    method Note(e: Event) returns (arrival: nat)
      requires Valid()
      modifies this`history
      ensures Valid() && Model() == old(Model()).(history := old(history) + [e]) && arrival == |old(history)|
    {
      arrival := |history|;
      history := history + [e];
    }

    /** rx_context_feed */
    method FeedRecord(e: Event, mallocOk: bool)
      requires Valid() && RxGateRuns.StablySorted(queue.entries)
      modifies this, queue, queue.repr
      ensures Valid() && fresh(queue.repr - old(queue.repr))
      ensures Model() == FeedStep(l, old(Model()), e, mallocOk)
    {
      if e.size < l.detailBytes {
        return;
      }
      var arrival := Note(e);
      RxGateRuns.ExpireSorted(l, Model(), e.detail.ts);
      ExpireUntil(e.detail.ts);
      Dispatch(arrival, e, mallocOk);
    }

    /** rx_context_finish */
    method FinishAll()
      requires Valid()
      modifies this, queue, queue.repr
      ensures Valid() && queue.repr == old(queue.repr) && Model() == FinishStep(l, old(Model()))
    {
      ghost var start := Model();
      ghost var now := start;
      HeadEntry();
      while queue.head != null
        invariant Valid() && queue.repr == old(queue.repr) && Model() == now
        invariant queue.head == null <==> now.list == []
        invariant FinishLoop(now) == FinishLoop(start)
        decreases |now.list|
      {
        DropOldest(Unresolved);
        now := DropHead(now, Unresolved);
        HeadEntry();
      }
      SetOwners(seq(l.slots, _ => NO_OWNER));
    }

    /** Any operation, from a state of a run to the next state of that run. */
    method Perform(op: Op, ghost ops: seq<Op>)
      requires Valid() && Model() == Run(l, ops)
      modifies this, queue, queue.repr
      ensures Valid() && fresh(queue.repr - old(queue.repr))
      ensures Model() == Run(l, ops + [op])
    {
      RxGateRuns.EveryRunKeepsInvariant(l, ops);
      assert (ops + [op])[..|ops|] == ops;
      match op
      case Feed(event, mallocOk) => FeedRecord(event, mallocOk);
      case Tick(now) => ExpireUntil(now);
      case Finish => FinishAll();
    }
  }
}
