/** Order in the runs of the RX ownership gate: outcomes are only ever added, so what justifies one
    had been fed by the time it was emitted. */
module RxGateOrder {
  import opened RxGate
  import RxGateRuns

  /** The histories of `s` are fronts of those of `t`. */
  ghost predicate Extends(s: State, t: State) {
    s.log <= t.log && s.history <= t.history
  }

  lemma {:induction false} ExtendsTransitive(a: State, b: State, c: State)
    requires Extends(a, b) && Extends(b, c)
    ensures Extends(a, c)
  {
  }

  lemma {:induction false} ExpireLoopExtends(l: Limits, s: State)
    ensures Extends(s, ExpireLoop(l, s))
    decreases |s.list|
  {
    if s.list != [] && Stale(l, s.watermark, s.list[0].detail.ts) {
      ExpireLoopExtends(l, DropHead(s, Expired));
    }
  }

  lemma {:induction false} ExpireExtends(l: Limits, s: State, ts: nat)
    ensures Extends(s, Expire(l, s, ts))
  {
    ExpireLoopExtends(l, if ts > s.watermark then s.(watermark := ts) else s);
  }

  lemma {:induction false} ReplayLoopExtends(l: Limits, s: State, i: nat, evidence: Owner)
    requires i <= |s.list|
    ensures Extends(s, ReplayLoop(l, s, i, evidence))
    decreases |s.list| - i
  {
    if i < |s.list| {
      if Matches(l, s.list[i].detail, evidence) {
        ReplayLoopExtends(l, Drop(s, i, Replayed, Apply(s.list[i].detail, evidence)), i, evidence);
      } else {
        ReplayLoopExtends(l, s, i + 1, evidence);
      }
    }
  }

  lemma {:induction false} EvictLoopExtends(l: Limits, s: State, allocation: nat)
    requires l.Ok() && allocation + l.ownersBytes <= l.maxBytes
    ensures Extends(s, EvictLoop(l, s, allocation))
    decreases |s.list|
  {
    if Full(l, s, allocation) {
      EvictLoopExtends(l, DropHead(s, CapacityDropped), allocation);
    }
  }

  lemma {:induction false} FinishLoopExtends(s: State)
    ensures Extends(s, FinishLoop(s))
    decreases |s.list|
  {
    if s.list != [] { FinishLoopExtends(DropHead(s, Unresolved)); }
  }

  lemma {:induction false} EvidenceExtends(l: Limits, s: State, d: Detail)
    requires l.Ok() && |s.owners| == l.slots
    ensures Extends(s, FeedEvidence(l, s, d))
  {
    var slot, evidence := Slot(l, d.key, d.generation), EvidenceOf(d);
    ReplayLoopExtends(l, s, 0, evidence);
    ReplayLoopExtends(l, s.(owners := s.owners[slot := evidence]), 0, evidence);
  }

  lemma {:induction false} DispatchExtends(l: Limits, s: State, arrival: nat, e: Event, mallocOk: bool)
    requires l.Ok() && |s.owners| == l.slots && l.detailBytes <= e.size && e.detail.ts <= s.watermark
    ensures Extends(s, DispatchStep(l, s, arrival, e, mallocOk))
  {
    var d := e.detail;
    if Trackable(d) && d.ownerPending {
      PendingExtends(l, s, arrival, e, mallocOk);
    } else if Trackable(d) {
      EvidenceExtends(l, s, d);
    }
  }

  lemma {:induction false} PendingExtends(l: Limits, s: State, arrival: nat, e: Event, mallocOk: bool)
    requires l.Ok() && |s.owners| == l.slots && l.detailBytes <= e.size && e.detail.ts <= s.watermark
    ensures Extends(s, FeedPending(l, s, arrival, e, mallocOk))
  {
    if l.Allocation(e.size) + l.ownersBytes <= l.maxBytes {
      EvictLoopExtends(l, s, l.Allocation(e.size));
    }
  }

  lemma {:induction false} FeedExtends(l: Limits, s: State, e: Event, mallocOk: bool)
    requires l.Ok() && |s.owners| == l.slots
    ensures Extends(s, FeedStep(l, s, e, mallocOk))
  {
    if e.size >= l.detailBytes {
      var s0 := s.(history := s.history + [e]);
      ExpireExtends(l, s0, e.detail.ts);
      DispatchExtends(l, Expire(l, s0, e.detail.ts), |s.history|, e, mallocOk);
    }
  }

  lemma {:induction false} StepExtends(l: Limits, s: State, op: Op)
    requires l.Ok() && |s.owners| == l.slots
    ensures Extends(s, Step(l, s, op))
  {
    match op
    case Feed(event, mallocOk) => FeedExtends(l, s, event, mallocOk);
    case Tick(now) => ExpireExtends(l, s, now);
    case Finish => FinishLoopExtends(s);
  }

  lemma {:induction false} RunExtends(l: Limits, ops: seq<Op>, more: seq<Op>)
    requires l.Ok()
    ensures Extends(Run(l, ops), Run(l, ops + more))
    decreases |more|
  {
    if more == [] {
      assert ops + more == ops;
    } else {
      var front := more[..|more| - 1];
      assert (ops + more)[..|ops + more| - 1] == ops + front;
      RunExtends(l, ops, front);
      StepExtends(l, Run(l, ops + front), more[|more| - 1]);
      ExtendsTransitive(Run(l, ops), Run(l, ops + front), Run(l, ops + more));
    }
  }

  /** Evidence comes first: a replayed record keeps its place in the output for good, and the event
      that names its owner is among those fed up to the operation that emitted it. */
  lemma {:induction false} EvidenceWasFedBefore(l: Limits, ops: seq<Op>, more: seq<Op>, i: nat)
    requires l.Ok() && i < |Run(l, ops).log| && Run(l, ops).log[i].kind == Replayed
    ensures i < |Run(l, ops + more).log| && Run(l, ops + more).log[i] == Run(l, ops).log[i]
    ensures var s := Run(l, ops);
            var o := s.log[i];
            o.arrival < |s.history| &&
            var d := s.history[o.arrival].detail;
            exists h :: 0 <= h < |s.history| && IsEvidence(s.history[h].detail) &&
                        s.history[h].detail.key == d.key && s.history[h].detail.generation == d.generation &&
                        d.ts <= s.history[h].detail.ts <= d.ts + l.window &&
                        RxGateRuns.OwnedBy(o.detail, d, s.history[h].detail)
  {
    RunExtends(l, ops, more);
    RxGateRuns.ReplaysAreJustified(l, ops, Run(l, ops), i);
  }
}
