/** The RX ownership gate as a pure machine, and what holds of every run of it.

    Early receive events are quarantined until direct socket evidence for the same
    socket buffer arrives.  The linked list of the program is a sequence here; the
    class in RxContext.dfy edits the real links and is proved equal to this machine. */
module RxGate {
  import Bits
  import opened Packet

  /** The part of an event record the gate reads or writes; `rest` stands for all other bytes. */
  datatype Detail = Detail(
    ts: nat, direction: Direction, key: nat, generation: nat,
    ownerPending: bool, ownerEvidence: nat, ownerValid: bool,
    ownerSocketKey: nat, ownerSocketGeneration: nat,
    ownerTid: nat, ownerTgid: nat, ownerUid: nat, rest: nat)

  /** One record handed to the gate by a perf buffer. */
  datatype Event = Event(cpu: int, size: nat, detail: Detail)

  /** Direct evidence kept in one slot; the all-zero value means "none". */
  datatype Owner = Owner(
    key: nat, generation: nat, timestamp: nat, socketKey: nat, socketGeneration: nat,
    tid: nat, tgid: nat, uid: nat)

  const NO_OWNER := Owner(0, 0, 0, 0, 0, 0, 0, 0)

  /** A quarantined record; `arrival` is its position among the records fed so far. */
  datatype Entry = Entry(arrival: nat, cpu: int, size: nat, detail: Detail)

  /** The compile-time limits, all of them overridable in the program. */
  datatype Limits = Limits(
    maxEvents: nat, maxBytes: nat, window: nat, slots: nat,
    entryBytes: nat, detailBytes: nat, ownersBytes: nat)
  {
    ghost predicate Ok() {
      0 < maxEvents && 0 < slots && detailBytes <= entryBytes
    }

    function Allocation(size: nat): nat
      requires detailBytes <= entryBytes
    {
      entryBytes + size - detailBytes
    }
  }

  datatype Kind = Passed | Replayed | Expired | CapacityDropped | Unresolved

  /** What became of one fed record; for the first two kinds `detail` is what was emitted. */
  datatype Outcome = Outcome(arrival: nat, kind: Kind, detail: Detail)

  datatype State = State(
    list: seq<Entry>, owners: seq<Owner>, watermark: nat,
    replayed: nat, expired: nat, capacityDropped: nat, unresolved: nat,
    history: seq<Event>, log: seq<Outcome>)

  datatype Op = Feed(event: Event, mallocOk: bool) | Tick(now: nat) | Finish

  // ----- The steps, as the program takes them

  function Slot(l: Limits, key: nat, generation: nat): (r: nat)
    requires 0 < l.slots
    ensures r < l.slots
  {
    Bits.Xor(key / 16, generation) % l.slots
  }

  predicate Matches(l: Limits, d: Detail, o: Owner) {
    o.key == d.key && o.generation == d.generation &&
    o.timestamp >= d.ts && o.timestamp - d.ts <= l.window
  }

  function Apply(d: Detail, o: Owner): Detail {
    d.(ownerPending := false, ownerEvidence := 2, ownerValid := true,
       ownerSocketKey := o.socketKey, ownerSocketGeneration := o.socketGeneration,
       ownerTid := o.tid, ownerTgid := o.tgid, ownerUid := o.uid)
  }

  predicate Trackable(d: Detail) {
    d.direction == Rx && d.key != 0 && d.generation != 0
  }

  predicate IsEvidence(d: Detail) {
    !d.ownerPending && Trackable(d) &&
    d.ownerEvidence == 1 && d.ownerValid && d.ownerSocketKey != 0 && d.ownerSocketGeneration != 0
  }

  function EvidenceOf(d: Detail): Owner {
    Owner(d.key, d.generation, d.ts, d.ownerSocketKey, d.ownerSocketGeneration,
          d.ownerTid, d.ownerTgid, d.ownerUid)
  }

  function Bytes(l: Limits, list: seq<Entry>): nat
    requires l.detailBytes <= l.entryBytes
  {
    if list == [] then 0 else Bytes(l, list[..|list| - 1]) + l.Allocation(list[|list| - 1].size)
  }

  function Bump(s: State, kind: Kind): State {
    match kind
    case Passed => s
    case Replayed => s.(replayed := s.replayed + 1)
    case Expired => s.(expired := s.expired + 1)
    case CapacityDropped => s.(capacityDropped := s.capacityDropped + 1)
    case Unresolved => s.(unresolved := s.unresolved + 1)
  }

  function Record(s: State, kind: Kind, arrival: nat, detail: Detail): State {
    Bump(s.(log := s.log + [Outcome(arrival, kind, detail)]), kind)
  }

  /** Unlink the entry at `i` and account for it. */
  function Drop(s: State, i: nat, kind: Kind, detail: Detail): State
    requires i < |s.list|
  {
    Record(s.(list := s.list[..i] + s.list[i + 1..]), kind, s.list[i].arrival, detail)
  }

  function DropHead(s: State, kind: Kind): State
    requires s.list != []
  {
    Drop(s, 0, kind, s.list[0].detail)
  }

  predicate Stale(l: Limits, watermark: nat, ts: nat) {
    watermark >= ts && watermark - ts > l.window
  }

  function ExpireLoop(l: Limits, s: State): (t: State)
    ensures t.owners == s.owners && t.history == s.history && t.watermark == s.watermark
    decreases |s.list|
  {
    if s.list != [] && Stale(l, s.watermark, s.list[0].detail.ts)
    then ExpireLoop(l, DropHead(s, Expired)) else s
  }

  function Expire(l: Limits, s: State, ts: nat): (t: State)
    ensures t.owners == s.owners && t.history == s.history
    ensures t.watermark >= ts && t.watermark >= s.watermark && (t.watermark == ts || t.watermark == s.watermark)
  {
    ExpireLoop(l, if ts > s.watermark then s.(watermark := ts) else s)
  }

  function ReplayLoop(l: Limits, s: State, i: nat, evidence: Owner): (t: State)
    requires i <= |s.list|
    ensures t.owners == s.owners && t.history == s.history && t.watermark == s.watermark
    decreases |s.list| - i
  {
    if i == |s.list| then s
    else if Matches(l, s.list[i].detail, evidence)
    then ReplayLoop(l, Drop(s, i, Replayed, Apply(s.list[i].detail, evidence)), i, evidence)
    else ReplayLoop(l, s, i + 1, evidence)
  }

  predicate Full(l: Limits, s: State, allocation: nat)
    requires l.detailBytes <= l.entryBytes
  {
    |s.list| >= l.maxEvents || Bytes(l, s.list) + allocation + l.ownersBytes > l.maxBytes
  }

  /** The eviction loop of the program has no test for an empty list.  None is needed: an empty
      list is never full once the new allocation fits beside the owner table, which is what makes
      `DropHead` callable here. */
  function EvictLoop(l: Limits, s: State, allocation: nat): (t: State)
    requires l.Ok() && allocation + l.ownersBytes <= l.maxBytes
    ensures t.owners == s.owners && t.history == s.history && t.watermark == s.watermark
    decreases |s.list|
  {
    if Full(l, s, allocation) then EvictLoop(l, DropHead(s, CapacityDropped), allocation) else s
  }

  /** First position whose entry is strictly younger than `ts`. */
  function InsertPosition(list: seq<Entry>, i: nat, ts: nat): (p: nat)
    requires i <= |list|
    ensures i <= p <= |list|
    ensures forall k :: i <= k < p ==> list[k].detail.ts <= ts
    ensures p < |list| ==> list[p].detail.ts > ts
    decreases |list| - i
  {
    if i < |list| && list[i].detail.ts <= ts then InsertPosition(list, i + 1, ts) else i
  }

  function Insert(s: State, e: Entry): State {
    var p := InsertPosition(s.list, 0, e.detail.ts);
    s.(list := s.list[..p] + [e] + s.list[p..])
  }

  function FeedEvidence(l: Limits, s: State, d: Detail): (t: State)
    requires l.Ok() && |s.owners| == l.slots
    ensures |t.owners| == l.slots
  {
    var slot := Slot(l, d.key, d.generation);
    var evidence := EvidenceOf(d);
    var held := s.owners[slot];
    var s1 := if held.key != evidence.key || held.generation != evidence.generation ||
                 held.timestamp <= evidence.timestamp
              then s.(owners := s.owners[slot := evidence]) else s;
    ReplayLoop(l, s1, 0, evidence)
  }

  function FeedPending(l: Limits, s: State, arrival: nat, e: Event, mallocOk: bool): State
    requires l.Ok() && |s.owners| == l.slots
    requires l.detailBytes <= e.size && e.detail.ts <= s.watermark
  {
    var d := e.detail;
    var allocation := l.Allocation(e.size);
    var owner := s.owners[Slot(l, d.key, d.generation)];
    if s.watermark - d.ts > l.window then Record(s, Expired, arrival, d)
    else if allocation + l.ownersBytes > l.maxBytes || !mallocOk then Record(s, CapacityDropped, arrival, d)
    else if Matches(l, d, owner) then Record(s, Replayed, arrival, Apply(d, owner))
    else Insert(EvictLoop(l, s, allocation), Entry(arrival, e.cpu, e.size, d))
  }

  function DispatchStep(l: Limits, s: State, arrival: nat, e: Event, mallocOk: bool): (t: State)
    requires l.Ok() && |s.owners| == l.slots && l.detailBytes <= e.size && e.detail.ts <= s.watermark
    ensures |t.owners| == l.slots
  {
    var d := e.detail;
    if !Trackable(d) then Record(s, if d.ownerPending then Unresolved else Passed, arrival, d)
    else if !d.ownerPending then
      Record(if IsEvidence(d) then FeedEvidence(l, s, d) else s, Passed, arrival, d)
    else FeedPending(l, s, arrival, e, mallocOk)
  }

  function FeedStep(l: Limits, s: State, e: Event, mallocOk: bool): (t: State)
    requires l.Ok() && |s.owners| == l.slots
    ensures |t.owners| == l.slots
  {
    if e.size < l.detailBytes then s
    else
      DispatchStep(l, Expire(l, s.(history := s.history + [e]), e.detail.ts), |s.history|, e, mallocOk)
  }

  function FinishLoop(s: State): (t: State)
    ensures t.owners == s.owners && t.history == s.history && t.watermark == s.watermark
    decreases |s.list|
  {
    if s.list != [] then FinishLoop(DropHead(s, Unresolved)) else s
  }

  function FinishStep(l: Limits, s: State): State {
    FinishLoop(s).(owners := seq(l.slots, _ => NO_OWNER))
  }

  function Init(l: Limits): State {
    State([], seq(l.slots, _ => NO_OWNER), 0, 0, 0, 0, 0, [], [])
  }

  function Step(l: Limits, s: State, op: Op): (t: State)
    requires l.Ok() && |s.owners| == l.slots
    ensures |t.owners| == l.slots
  {
    match op
    case Feed(event, mallocOk) => FeedStep(l, s, event, mallocOk)
    case Tick(now) => Expire(l, s, now)
    case Finish => FinishStep(l, s)
  }

  /** The state after the operations `ops`, in order, from the empty gate. */
  function Run(l: Limits, ops: seq<Op>): (t: State)
    requires l.Ok()
    ensures |t.owners| == l.slots
  {
    if ops == [] then Init(l) else Step(l, Run(l, ops[..|ops| - 1]), ops[|ops| - 1])
  }
}
