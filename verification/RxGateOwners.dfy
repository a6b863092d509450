/** What the owner slots of the RX ownership gate hold, told from the operations alone, and what this
    means for a record that is fed after its evidence. */
module RxGateOwners {
  import opened Packet
  import opened RxGate
  import opened RxGateRuns

  // ----- The evidence that is still good

  /** The operation feeds direct evidence: a whole record of a received buffer that names its owner's
      socket and is not itself waiting for one. */
  ghost predicate FeedsEvidence(l: Limits, op: Op) {
    op.Feed? && op.event.size >= l.detailBytes &&
    var d := op.event.detail;
    d.direction == Rx && d.key != 0 && d.generation != 0 && !d.ownerPending && d.ownerEvidence == 1 &&
    d.ownerValid && d.ownerSocketKey != 0 && d.ownerSocketGeneration != 0
  }

  ghost predicate FeedsSlot(l: Limits, op: Op, k: nat)
    requires l.Ok()
  {
    FeedsEvidence(l, op) && Slot(l, op.event.detail.key, op.event.detail.generation) == k
  }

  /** Since the evidence at `p` there was no finish, and its slot got no evidence of another buffer. */
  ghost predicate Unbroken(l: Limits, ops: seq<Op>, p: nat, k: nat)
    requires l.Ok()
  {
    p < |ops| && FeedsSlot(l, ops[p], k) &&
    forall q :: p < q < |ops| ==>
      !ops[q].Finish? &&
      (FeedsSlot(l, ops[q], k) ==>
         ops[q].event.detail.key == ops[p].event.detail.key &&
         ops[q].event.detail.generation == ops[p].event.detail.generation)
  }

  /** A slot holds the latest of its unbroken evidence, and nothing if there is none. */
  ghost predicate SlotTold(l: Limits, ops: seq<Op>, k: nat, o: Owner)
    requires l.Ok()
  {
    (forall p :: 0 <= p < |ops| && Unbroken(l, ops, p, k) ==>
       o.key == ops[p].event.detail.key && o.generation == ops[p].event.detail.generation &&
       ops[p].event.detail.ts <= o.timestamp) &&
    (o.key != 0 ==> exists p :: 0 <= p < |ops| && Unbroken(l, ops, p, k) && Holds(o, ops[p].event.detail))
  }

  /** The owner is the one this record names. */
  ghost predicate Holds(o: Owner, d: Detail) {
    o.key == d.key && o.generation == d.generation && o.timestamp == d.ts &&
    o.socketKey == d.ownerSocketKey && o.socketGeneration == d.ownerSocketGeneration &&
    o.tid == d.ownerTid && o.tgid == d.ownerTgid && o.uid == d.ownerUid
  }

  ghost predicate SlotsTold(l: Limits, ops: seq<Op>, owners: seq<Owner>)
    requires l.Ok() && |owners| == l.slots
  {
    forall k :: 0 <= k < l.slots ==> SlotTold(l, ops, k, owners[k])
  }

  // ----- What each operation does to the slots

  /** A slot after new evidence: a later record of the same instance is not given up. */
  function Kept(held: Owner, evidence: Owner): Owner {
    if held.key == evidence.key && held.generation == evidence.generation && held.timestamp > evidence.timestamp
    then held else evidence
  }

  lemma {:induction false} FeedOwners(l: Limits, s: State, e: Event, mallocOk: bool)
    requires l.Ok() && |s.owners| == l.slots
    ensures var t := FeedStep(l, s, e, mallocOk);
            var d := e.detail;
            if FeedsEvidence(l, Feed(e, mallocOk))
            then var k := Slot(l, d.key, d.generation);
                 t.owners == s.owners[k := Kept(s.owners[k], EvidenceOf(d))]
            else t.owners == s.owners
  {
    if e.size >= l.detailBytes {
      var s1 := Expire(l, s.(history := s.history + [e]), e.detail.ts);
      if FeedsEvidence(l, Feed(e, mallocOk)) {
        var k := Slot(l, e.detail.key, e.detail.generation);
        assert s1.owners == s1.owners[k := s1.owners[k]];
      }
    }
  }

  lemma {:induction false} UnbrokenBefore(l: Limits, ops: seq<Op>, op: Op, p: nat, k: nat)
    requires l.Ok() && p < |ops|
    ensures Unbroken(l, ops + [op], p, k) <==>
            Unbroken(l, ops, p, k) && !op.Finish? &&
            (FeedsSlot(l, op, k) ==>
               op.event.detail.key == ops[p].event.detail.key &&
               op.event.detail.generation == ops[p].event.detail.generation)
  {
    var more := ops + [op];
    assert more[|ops|] == op && forall q :: 0 <= q < |ops| ==> more[q] == ops[q];
  }

  /** A slot that the operation leaves alone. */
  lemma {:induction false} SlotUntouched(l: Limits, ops: seq<Op>, op: Op, k: nat, o: Owner)
    requires l.Ok() && SlotTold(l, ops, k, o) && !op.Finish? && !FeedsSlot(l, op, k)
    ensures SlotTold(l, ops + [op], k, o)
  {
    var more := ops + [op];
    forall p | 0 <= p < |ops| ensures Unbroken(l, more, p, k) == Unbroken(l, ops, p, k) && more[p] == ops[p] {
      UnbrokenBefore(l, ops, op, p, k);
    }
    assert !Unbroken(l, more, |ops|, k);
  }

  lemma {:induction false} SlotEvidence(l: Limits, ops: seq<Op>, op: Op, k: nat, o: Owner)
    requires l.Ok() && SlotTold(l, ops, k, o) && FeedsSlot(l, op, k)
    ensures SlotTold(l, ops + [op], k, Kept(o, EvidenceOf(op.event.detail)))
  {
    var more, n := ops + [op], |ops|;
    var o' := Kept(o, EvidenceOf(op.event.detail));
    assert more[n] == op && Unbroken(l, more, n, k);
    forall p | 0 <= p < n
      ensures more[p] == ops[p]
      ensures Unbroken(l, more, p, k) ==> Unbroken(l, ops, p, k) && o.key == op.event.detail.key &&
                                          o.generation == op.event.detail.generation
      ensures Unbroken(l, ops, p, k) && o.key == op.event.detail.key && o.generation == op.event.detail.generation ==>
                Unbroken(l, more, p, k)
    {
      UnbrokenBefore(l, ops, op, p, k);
    }
    if o' == o {
      var p :| 0 <= p < n && Unbroken(l, ops, p, k) && Holds(o, ops[p].event.detail);
      assert Unbroken(l, more, p, k) && Holds(o, more[p].event.detail);
    } else {
      assert Holds(o', more[n].event.detail);
    }
  }

  lemma {:induction false} SlotFinished(l: Limits, ops: seq<Op>, k: nat)
    requires l.Ok()
    ensures SlotTold(l, ops + [Finish], k, NO_OWNER)
  {
    var more := ops + [Finish];
    assert more[|ops|] == Finish;
    forall p | 0 <= p < |more| ensures !Unbroken(l, more, p, k) {
      if p < |ops| { UnbrokenBefore(l, ops, Finish, p, k); }
    }
  }

  /** In every run every slot holds the latest evidence fed to it since the last finish and since any
      evidence of another buffer, and nothing if there is none. */
  lemma {:induction false} EveryRunTellsSlots(l: Limits, ops: seq<Op>)
    requires l.Ok()
    ensures SlotsTold(l, ops, Run(l, ops).owners)
    decreases |ops|
  {
    if ops != [] {
      var front, op := ops[..|ops| - 1], ops[|ops| - 1];
      assert ops == front + [op];
      EveryRunTellsSlots(l, front);
      StepTellsSlots(l, Run(l, front), front, op);
    }
  }

  lemma {:induction false} StepTellsSlots(l: Limits, s: State, ops: seq<Op>, op: Op)
    requires l.Ok() && |s.owners| == l.slots && SlotsTold(l, ops, s.owners)
    ensures SlotsTold(l, ops + [op], Step(l, s, op).owners)
  {
    var t := Step(l, s, op);
    if op.Feed? { FeedOwners(l, s, op.event, op.mallocOk); }
    forall k | 0 <= k < l.slots ensures SlotTold(l, ops + [op], k, t.owners[k]) {
      assert SlotTold(l, ops, k, s.owners[k]);
      if op.Finish? {
        SlotFinished(l, ops, k);
      } else if FeedsSlot(l, op, k) {
        SlotEvidence(l, ops, op, k, s.owners[k]);
      } else {
        SlotUntouched(l, ops, op, k, s.owners[k]);
      }
    }
  }

  // ----- The watermark has seen all evidence

  lemma {:induction false} EveryRunRaisesWatermark(l: Limits, ops: seq<Op>, p: nat)
    requires l.Ok() && p < |ops| && FeedsEvidence(l, ops[p])
    ensures ops[p].event.detail.ts <= Run(l, ops).watermark
    decreases |ops|
  {
    var front, op := ops[..|ops| - 1], ops[|ops| - 1];
    WatermarkNeverFalls(l, Run(l, front), op);
    if p < |front| {
      EveryRunRaisesWatermark(l, front, p);
    }
  }

  lemma {:induction false} WatermarkNeverFalls(l: Limits, s: State, op: Op)
    requires l.Ok() && |s.owners| == l.slots
    ensures Step(l, s, op).watermark >= s.watermark
    ensures FeedsEvidence(l, op) ==> Step(l, s, op).watermark >= op.event.detail.ts
  {
    if op.Feed? && op.event.size >= l.detailBytes {
      var e := op.event;
      DispatchWatermark(l, Expire(l, s.(history := s.history + [e]), e.detail.ts), |s.history|, e, op.mallocOk);
    }
  }

  lemma {:induction false} DispatchWatermark(l: Limits, s: State, arrival: nat, e: Event, mallocOk: bool)
    requires l.Ok() && |s.owners| == l.slots && l.detailBytes <= e.size && e.detail.ts <= s.watermark
    ensures DispatchStep(l, s, arrival, e, mallocOk).watermark == s.watermark
  {
  }

  // ----- The fate of a pending record

  /** Direct evidence fed before the record, still good, about the same buffer instance, and dated from
      the time of the record to one window later. */
  ghost predicate Explains(l: Limits, ops: seq<Op>, p: nat, d: Detail)
    requires l.Ok()
  {
    p < |ops| && Unbroken(l, ops, p, Slot(l, d.key, d.generation)) &&
    ops[p].event.detail.key == d.key && ops[p].event.detail.generation == d.generation &&
    d.ts <= ops[p].event.detail.ts <= d.ts + l.window
  }

  lemma {:induction false} SlotMatchesExactly(l: Limits, ops: seq<Op>, d: Detail, watermark: nat)
    requires l.Ok() && d.key != 0 && Run(l, ops).watermark <= watermark <= d.ts + l.window
    ensures var o := Run(l, ops).owners[Slot(l, d.key, d.generation)];
            (Matches(l, d, o) <==> exists p :: 0 <= p < |ops| && Explains(l, ops, p, d)) &&
            (Matches(l, d, o) ==>
               exists p :: 0 <= p < |ops| && Explains(l, ops, p, d) && OwnedBy(Apply(d, o), d, ops[p].event.detail))
  {
    var k := Slot(l, d.key, d.generation);
    var o := Run(l, ops).owners[k];
    EveryRunTellsSlots(l, ops);
    assert SlotTold(l, ops, k, o);
    if o.key != 0 {
      var p :| 0 <= p < |ops| && Unbroken(l, ops, p, k) && Holds(o, ops[p].event.detail);
      EveryRunRaisesWatermark(l, ops, p);
      assert Matches(l, d, o) ==> Explains(l, ops, p, d) && OwnedBy(Apply(d, o), d, ops[p].event.detail);
    }
    forall p | 0 <= p < |ops| && Explains(l, ops, p, d) ensures Matches(l, d, o) {
      assert Unbroken(l, ops, p, k);
    }
  }

  /** What becomes of a pending record of a received buffer, told from the operations before it: it is
      expired if the watermark is more than a window ahead; dropped if it does not fit beside the owner
      table or gets no memory; else replayed at once if and only if evidence explains it, with the owner
      of such evidence; and else quarantined. */
  lemma {:induction false} PendingFateExactly(l: Limits, ops: seq<Op>, e: Event, mallocOk: bool)
    requires l.Ok() && e.size >= l.detailBytes
    requires e.detail.ownerPending && e.detail.direction == Rx && e.detail.key != 0 && e.detail.generation != 0
    ensures var s, t, d := Run(l, ops), Run(l, ops + [Feed(e, mallocOk)]), e.detail;
            var n, watermark := |s.history|, if d.ts > s.watermark then d.ts else s.watermark;
            t.history == s.history + [e] && t.watermark == watermark &&
            if watermark - d.ts > l.window
            then t.log != [] && t.log[|t.log| - 1] == Outcome(n, Expired, d) && t.replayed == s.replayed
            else if l.entryBytes + e.size - l.detailBytes + l.ownersBytes > l.maxBytes || !mallocOk
            then t.log != [] && t.log[|t.log| - 1] == Outcome(n, CapacityDropped, d) && t.replayed == s.replayed
            else if exists p :: 0 <= p < |ops| && Explains(l, ops, p, d)
            then t.replayed == s.replayed + 1 && t.log != [] &&
                 var o := t.log[|t.log| - 1];
                 o.arrival == n && o.kind == Replayed &&
                 exists p :: 0 <= p < |ops| && Explains(l, ops, p, d) && OwnedBy(o.detail, d, ops[p].event.detail)
            else t.replayed == s.replayed && Entry(n, e.cpu, e.size, d) in t.list
  {
    var s, d := Run(l, ops), e.detail;
    var op := Feed(e, mallocOk);
    assert (ops + [op])[..|ops + [op]| - 1] == ops;
    var s0 := s.(history := s.history + [e]);
    var s1 := Expire(l, s0, d.ts);
    ExpireCounts(l, if d.ts > s0.watermark then s0.(watermark := d.ts) else s0);
    if s1.watermark - d.ts <= l.window {
      SlotMatchesExactly(l, ops, d, s1.watermark);
      QuarantineAdds(l, s1, |s.history|, e, mallocOk);
    }
  }

  lemma {:induction false} ExpireCounts(l: Limits, s: State)
    ensures ExpireLoop(l, s).replayed == s.replayed && ExpireLoop(l, s).capacityDropped == s.capacityDropped
    decreases |s.list|
  {
    if s.list != [] && Stale(l, s.watermark, s.list[0].detail.ts) {
      ExpireCounts(l, DropHead(s, Expired));
    }
  }

  lemma {:induction false} EvictCounts(l: Limits, s: State, allocation: nat)
    requires l.Ok() && allocation + l.ownersBytes <= l.maxBytes
    ensures EvictLoop(l, s, allocation).replayed == s.replayed
    decreases |s.list|
  {
    if Full(l, s, allocation) { EvictCounts(l, DropHead(s, CapacityDropped), allocation); }
  }

  /** A record that is not stale, fits and is not matched by its slot goes into the list. */
  lemma {:induction false} QuarantineAdds(l: Limits, s: State, arrival: nat, e: Event, mallocOk: bool)
    requires l.Ok() && |s.owners| == l.slots && l.detailBytes <= e.size && e.detail.ts <= s.watermark
    requires s.watermark - e.detail.ts <= l.window
    ensures var t, allocation := FeedPending(l, s, arrival, e, mallocOk), l.Allocation(e.size);
            allocation + l.ownersBytes <= l.maxBytes && mallocOk &&
            !Matches(l, e.detail, s.owners[Slot(l, e.detail.key, e.detail.generation)]) ==>
              Entry(arrival, e.cpu, e.size, e.detail) in t.list && t.replayed == s.replayed &&
              t.history == s.history && t.watermark == s.watermark
  {
    var allocation := l.Allocation(e.size);
    if allocation + l.ownersBytes <= l.maxBytes {
      EvictCounts(l, s, allocation);
      var x, u := Entry(arrival, e.cpu, e.size, e.detail), EvictLoop(l, s, allocation);
      assert Insert(u, x).list[InsertPosition(u.list, 0, x.detail.ts)] == x;
    }
  }

  // ----- What makes room

  /** The bytes that a list of records and one more allocation take beside the owner table. */
  ghost predicate Fits(l: Limits, list: seq<Entry>, allocation: nat)
    requires l.detailBytes <= l.entryBytes
  {
    |list| < l.maxEvents && Bytes(l, list) + allocation + l.ownersBytes <= l.maxBytes
  }

  /** Without its `k` oldest records, and no fewer, the list leaves room. */
  ghost predicate Forced(l: Limits, list: seq<Entry>, k: nat, allocation: nat)
    requires l.detailBytes <= l.entryBytes
  {
    k <= |list| && Fits(l, list[k..], allocation) && forall j :: 0 <= j < k ==> !Fits(l, list[j..], allocation)
  }

  lemma {:induction false} ForcedCons(l: Limits, list: seq<Entry>, k: nat, allocation: nat)
    requires l.detailBytes <= l.entryBytes && list != [] && !Fits(l, list, allocation)
    requires Forced(l, list[1..], k, allocation)
    ensures Forced(l, list, k + 1, allocation)
  {
    assert list[k + 1..] == list[1..][k..];
    forall j | 0 <= j < k + 1 ensures !Fits(l, list[j..], allocation) {
      if j == 0 {
        assert list[0..] == list;
      } else {
        assert list[j..] == list[1..][j - 1..];
      }
    }
  }

  /** Eviction takes the oldest records away, as few as make room, and counts each of them. */
  lemma {:induction false} EvictionIsForced(l: Limits, s: State, allocation: nat) returns (k: nat)
    requires l.Ok() && allocation + l.ownersBytes <= l.maxBytes
    ensures var t := EvictLoop(l, s, allocation);
            Forced(l, s.list, k, allocation) && t.list == s.list[k..] && t.capacityDropped == s.capacityDropped + k
    decreases |s.list|
  {
    if Full(l, s, allocation) {
      var u := DropHead(s, CapacityDropped);
      assert u.list == s.list[1..];
      k := EvictionIsForced(l, u, allocation);
      ForcedCons(l, s.list, k, allocation);
      assert s.list[1..][k..] == s.list[k + 1..];
      k := k + 1;
    } else {
      k := 0;
      assert s.list[0..] == s.list;
    }
  }

  /** A record waits for its owner: received, of a known instance, and marked as pending. */
  ghost predicate FeedsPending(l: Limits, op: Op) {
    op.Feed? && op.event.size >= l.detailBytes && op.event.detail.ownerPending &&
    op.event.detail.direction == Rx && op.event.detail.key != 0 && op.event.detail.generation != 0
  }

  /** In every run records are dropped for lack of room only when a pending record is fed: that record
      alone if it can never fit or gets no memory, or else, unless it is replayed at once, the fewest of
      the oldest ones that make room for it. */
  lemma {:induction false} CapacityDropsAreForced(l: Limits, s: State, op: Op)
    requires l.Ok() && |s.owners| == l.slots
    ensures var t := Step(l, s, op);
            t.capacityDropped != s.capacityDropped ==>
              FeedsPending(l, op) &&
              var allocation := l.entryBytes + op.event.size - l.detailBytes;
              if allocation + l.ownersBytes > l.maxBytes || !op.mallocOk
              then t.capacityDropped == s.capacityDropped + 1
              else t.replayed == s.replayed && s.capacityDropped <= t.capacityDropped &&
                   Forced(l, Expire(l, s, op.event.detail.ts).list, t.capacityDropped - s.capacityDropped, allocation)
  {
    match op
    case Tick(now) => ExpireCounts(l, if now > s.watermark then s.(watermark := now) else s);
    case Finish => FinishCounts(s);
    case Feed(e, mallocOk) =>
      if e.size >= l.detailBytes {
        var s0 := s.(history := s.history + [e]);
        var s1 := Expire(l, s0, e.detail.ts);
        ExpireCounts(l, if e.detail.ts > s0.watermark then s0.(watermark := e.detail.ts) else s0);
        ExpireIgnoresHistory(l, if e.detail.ts > s.watermark then s.(watermark := e.detail.ts) else s, e);
        assert s1.list == Expire(l, s, e.detail.ts).list;
        if FeedsPending(l, op) {
          PendingCounts(l, s1, |s.history|, e, mallocOk);
        } else {
          DispatchCounts(l, s1, |s.history|, e, mallocOk);
        }
      }
  }

  lemma {:induction false} ExpireIgnoresHistory(l: Limits, s: State, e: Event)
    ensures ExpireLoop(l, s.(history := s.history + [e])).list == ExpireLoop(l, s).list
    decreases |s.list|
  {
    if s.list != [] && Stale(l, s.watermark, s.list[0].detail.ts) {
      ExpireIgnoresHistory(l, DropHead(s, Expired), e);
      assert DropHead(s.(history := s.history + [e]), Expired) ==
             DropHead(s, Expired).(history := s.history + [e]);
    }
  }

  lemma {:induction false} FinishCounts(s: State)
    ensures FinishLoop(s).capacityDropped == s.capacityDropped
    decreases |s.list|
  {
    if s.list != [] { FinishCounts(DropHead(s, Unresolved)); }
  }

  lemma {:induction false} ReplayCounts(l: Limits, s: State, i: nat, evidence: Owner)
    requires i <= |s.list|
    ensures ReplayLoop(l, s, i, evidence).capacityDropped == s.capacityDropped
    decreases |s.list| - i
  {
    if i < |s.list| {
      if Matches(l, s.list[i].detail, evidence) {
        ReplayCounts(l, Drop(s, i, Replayed, Apply(s.list[i].detail, evidence)), i, evidence);
      } else {
        ReplayCounts(l, s, i + 1, evidence);
      }
    }
  }

  lemma {:induction false} DispatchCounts(l: Limits, s: State, arrival: nat, e: Event, mallocOk: bool)
    requires l.Ok() && |s.owners| == l.slots && l.detailBytes <= e.size && e.detail.ts <= s.watermark
    requires !FeedsPending(l, Feed(e, mallocOk))
    ensures DispatchStep(l, s, arrival, e, mallocOk).capacityDropped == s.capacityDropped
  {
    var d := e.detail;
    ReplayCounts(l, s, 0, EvidenceOf(d));
    ReplayCounts(l, s.(owners := s.owners[Slot(l, d.key, d.generation) := EvidenceOf(d)]), 0, EvidenceOf(d));
  }

  lemma {:induction false} PendingCounts(l: Limits, s: State, arrival: nat, e: Event, mallocOk: bool)
    requires l.Ok() && |s.owners| == l.slots && l.detailBytes <= e.size && e.detail.ts <= s.watermark
    ensures var t := FeedPending(l, s, arrival, e, mallocOk);
            var allocation := l.entryBytes + e.size - l.detailBytes;
            t.capacityDropped != s.capacityDropped ==>
              if allocation + l.ownersBytes > l.maxBytes || !mallocOk then t.capacityDropped == s.capacityDropped + 1
              else t.replayed == s.replayed && s.capacityDropped <= t.capacityDropped &&
                   Forced(l, s.list, t.capacityDropped - s.capacityDropped, allocation)
  {
    var allocation := l.entryBytes + e.size - l.detailBytes;
    assert allocation == l.Allocation(e.size);
    if allocation + l.ownersBytes <= l.maxBytes {
      var k := EvictionIsForced(l, s, allocation);
      EvictCounts(l, s, allocation);
      assert EvictLoop(l, s, allocation).capacityDropped - s.capacityDropped == k;
    }
  }

  // ----- The other counters

  /** Records are given up as unresolved only at the end, or when they cannot be tracked at all. */
  lemma {:induction false} UnresolvedOnlyAtEnd(l: Limits, s: State, op: Op)
    requires l.Ok() && |s.owners| == l.slots && !op.Finish?
    ensures var t := Step(l, s, op);
            t.unresolved == s.unresolved +
              if op.Feed? && op.event.size >= l.detailBytes && op.event.detail.ownerPending && !FeedsPending(l, op)
              then 1 else 0
  {
    match op
    case Tick(now) => ExpireResolves(l, if now > s.watermark then s.(watermark := now) else s);
    case Feed(e, mallocOk) =>
      if e.size >= l.detailBytes {
        var s0 := s.(history := s.history + [e]);
        ExpireResolves(l, if e.detail.ts > s0.watermark then s0.(watermark := e.detail.ts) else s0);
        DispatchResolves(l, Expire(l, s0, e.detail.ts), |s.history|, e, mallocOk);
      }
  }

  lemma {:induction false} ExpireResolves(l: Limits, s: State)
    ensures ExpireLoop(l, s).unresolved == s.unresolved
    decreases |s.list|
  {
    if s.list != [] && Stale(l, s.watermark, s.list[0].detail.ts) { ExpireResolves(l, DropHead(s, Expired)); }
  }

  lemma {:induction false} EvictResolves(l: Limits, s: State, allocation: nat)
    requires l.Ok() && allocation + l.ownersBytes <= l.maxBytes
    ensures EvictLoop(l, s, allocation).unresolved == s.unresolved
    decreases |s.list|
  {
    if Full(l, s, allocation) { EvictResolves(l, DropHead(s, CapacityDropped), allocation); }
  }

  lemma {:induction false} ReplayResolves(l: Limits, s: State, i: nat, evidence: Owner)
    requires i <= |s.list|
    ensures ReplayLoop(l, s, i, evidence).unresolved == s.unresolved
    decreases |s.list| - i
  {
    if i < |s.list| {
      if Matches(l, s.list[i].detail, evidence) {
        ReplayResolves(l, Drop(s, i, Replayed, Apply(s.list[i].detail, evidence)), i, evidence);
      } else {
        ReplayResolves(l, s, i + 1, evidence);
      }
    }
  }

  lemma {:induction false} DispatchResolves(l: Limits, s: State, arrival: nat, e: Event, mallocOk: bool)
    requires l.Ok() && |s.owners| == l.slots && l.detailBytes <= e.size && e.detail.ts <= s.watermark
    ensures DispatchStep(l, s, arrival, e, mallocOk).unresolved == s.unresolved +
            if e.detail.ownerPending && !FeedsPending(l, Feed(e, mallocOk)) then 1 else 0
  {
    var d, allocation := e.detail, l.Allocation(e.size);
    if !d.ownerPending {
      ReplayResolves(l, s, 0, EvidenceOf(d));
      ReplayResolves(l, s.(owners := s.owners[Slot(l, d.key, d.generation) := EvidenceOf(d)]), 0, EvidenceOf(d));
    } else if allocation + l.ownersBytes <= l.maxBytes {
      EvictResolves(l, s, allocation);
    }
  }

  /** The watermark is the latest time fed or ticked, of whatever record. */
  lemma {:induction false} WatermarkIsLatest(l: Limits, s: State, op: Op)
    requires l.Ok() && |s.owners| == l.slots
    ensures var t := Step(l, s, op);
            var now := match op
                       case Feed(e, _) => if e.size >= l.detailBytes then e.detail.ts else 0
                       case Tick(now) => now
                       case Finish => 0;
            t.watermark == if now > s.watermark then now else s.watermark
  {
    if op.Feed? && op.event.size >= l.detailBytes {
      var e := op.event;
      DispatchWatermark(l, Expire(l, s.(history := s.history + [e]), e.detail.ts), |s.history|, e, op.mallocOk);
    }
  }
}
