/** What the flow table does with an event, told from all flows at once: which flow the event belongs to,
    what it changes there, and how flows end. */
module FlowMeaning {
  import opened Wrappers
  import opened FlowTable

  // ----- Which flow an event belongs to

  /** The event has the endpoints and namespace of the flow and lies in its lifetime. */
  ghost predicate InLifetime(f: Flow, e: Event) {
    f.tuple == e.tuple && f.netns == e.netns && f.first <= e.ts &&
    (f.active || e.ts <= (if f.end != 0 then f.end else f.last))
  }

  /** The event names the socket of the flow. */
  ghost predicate Certain(flows: seq<Flow>, i: nat, e: Event) {
    i < |flows| && InLifetime(flows[i], e) && e.socket != 0 && flows[i].socket == e.socket
  }

  /** One of the two does not know its socket. */
  ghost predicate Possible(flows: seq<Flow>, i: nat, e: Event) {
    i < |flows| && InLifetime(flows[i], e) && (e.socket == 0 || flows[i].socket == 0)
  }

  ghost predicate NoneCertain(flows: seq<Flow>, e: Event) {
    forall i :: 0 <= i < |flows| ==> !Certain(flows, i, e)
  }

  ghost predicate TwoCertain(flows: seq<Flow>, e: Event) {
    exists i, j :: 0 <= i < j < |flows| && Certain(flows, i, e) && Certain(flows, j, e)
  }

  ghost predicate TwoPossible(flows: seq<Flow>, e: Event) {
    exists i, j :: 0 <= i < j < |flows| && Possible(flows, i, e) && Possible(flows, j, e)
  }

  /** The only flow that is certain, or, if none is, the only one that is possible. */
  ghost predicate Belongs(flows: seq<Flow>, i: nat, e: Event) {
    (Certain(flows, i, e) && forall j :: 0 <= j < |flows| && Certain(flows, j, e) ==> j == i) ||
    (NoneCertain(flows, e) && Possible(flows, i, e) && forall j :: 0 <= j < |flows| && Possible(flows, j, e) ==> j == i)
  }

  lemma {:induction false} ExactCounts(flows: seq<Flow>, e: Event)
    ensures CountExact(flows, e) == 0 <==> NoneCertain(flows, e)
    ensures CountExact(flows, e) >= 2 <==> TwoCertain(flows, e)
  {
    if flows != [] {
      var front, n := flows[..|flows| - 1], |flows| - 1;
      ExactCounts(front, e);
      assert forall i :: 0 <= i < n ==> Certain(front, i, e) == Certain(flows, i, e);
      assert Certain(flows, n, e) == Exact(flows[n], e);
      if TwoCertain(flows, e) && !TwoCertain(front, e) {
        var i, j :| 0 <= i < j < |flows| && Certain(flows, i, e) && Certain(flows, j, e);
        assert Certain(front, i, e);
      }
      if CountExact(front, e) >= 1 && Certain(flows, n, e) {
        var i :| 0 <= i < |front| && Certain(front, i, e);
        assert Certain(flows, i, e);
      }
      if TwoCertain(front, e) {
        var i, j :| 0 <= i < j < |front| && Certain(front, i, e) && Certain(front, j, e);
        assert Certain(flows, i, e) && Certain(flows, j, e);
      }
    }
  }

  lemma {:induction false} CandidateCounts(flows: seq<Flow>, e: Event)
    requires NoneCertain(flows, e)
    ensures CountCandidates(flows, e) == 0 <==> forall i :: 0 <= i < |flows| ==> !Possible(flows, i, e)
    ensures CountCandidates(flows, e) >= 2 <==> TwoPossible(flows, e)
  {
    if flows != [] {
      var front, n := flows[..|flows| - 1], |flows| - 1;
      assert forall i :: 0 <= i < n ==> Certain(front, i, e) == Certain(flows, i, e);
      CandidateCounts(front, e);
      assert forall i :: 0 <= i < n ==> Possible(front, i, e) == Possible(flows, i, e);
      assert !Certain(flows, n, e);
      assert Possible(flows, n, e) == Candidate(flows[n], e);
      if TwoPossible(flows, e) && !TwoPossible(front, e) {
        var i, j :| 0 <= i < j < |flows| && Possible(flows, i, e) && Possible(flows, j, e);
        assert Possible(front, i, e);
      }
      if CountCandidates(front, e) >= 1 && Possible(flows, n, e) {
        var i :| 0 <= i < |front| && Possible(front, i, e);
        assert Possible(flows, i, e);
      }
      if TwoPossible(front, e) {
        var i, j :| 0 <= i < j < |front| && Possible(front, i, e) && Possible(front, j, e);
        assert Possible(flows, i, e) && Possible(flows, j, e);
      }
    }
  }

  /** The answer of a lookup, exactly. */
  lemma {:induction false} LookupExactly(flows: seq<Flow>, e: Event)
    ensures FlowOf(flows, e).Ambiguous? <==>
              TwoCertain(flows, e) || (NoneCertain(flows, e) && TwoPossible(flows, e))
    ensures forall i: nat :: FlowOf(flows, e) == Found(i) <==> Belongs(flows, i, e)
    ensures FlowOf(flows, e).Absent? <==>
              NoneCertain(flows, e) && forall i :: 0 <= i < |flows| ==> !Possible(flows, i, e)
  {
    ExactCounts(flows, e);
    if NoneCertain(flows, e) { CandidateCounts(flows, e); }
    forall i: nat ensures FlowOf(flows, e) == Found(i) <==> Belongs(flows, i, e) {
      BelongsExactly(flows, e, i);
    }
  }

  lemma {:induction false} BelongsExactly(flows: seq<Flow>, e: Event, i: nat)
    ensures FlowOf(flows, e) == Found(i) <==> Belongs(flows, i, e)
  {
    ExactCounts(flows, e);
    if CountExact(flows, e) == 1 {
      var k := LastExact(flows, e);
      assert Certain(flows, k, e);
      assert forall j :: 0 <= j < |flows| && Certain(flows, j, e) ==> j == k;
    } else if NoneCertain(flows, e) {
      CandidateCounts(flows, e);
      if CountCandidates(flows, e) == 1 {
        var k := LastCandidate(flows, e);
        assert Possible(flows, k, e);
        assert forall j :: 0 <= j < |flows| && Possible(flows, j, e) ==> j == k;
      }
    }
  }

  // ----- What an event changes

  /** An event that belongs to a flow extends its activity and tells it the socket, and nothing else; an
      ambiguous one changes nothing; any other opens a flow that starts with it, if there is memory. */
  lemma {:induction false} TouchExactly(flows: seq<Flow>, e: Event, stored: bool)
    ensures var after := Touch(flows, e, stored);
            if exists i: nat :: Belongs(flows, i, e)
            then |after| == |flows| &&
                 forall i :: 0 <= i < |flows| ==>
                   after[i] == if !Belongs(flows, i, e) then flows[i]
                               else flows[i].(last := if e.ts > flows[i].last then e.ts else flows[i].last,
                                              socket := if e.socket != 0 then e.socket else flows[i].socket)
            else if TwoCertain(flows, e) || (NoneCertain(flows, e) && TwoPossible(flows, e)) || !stored
            then after == flows
            else after == flows + [Flow(e.tuple, e.netns, e.socket, e.ts, e.ts, 0, e.udp, true, false, false)]
  {
    LookupExactly(flows, e);
    match FlowOf(flows, e)
    case Found(i) =>
      assert Belongs(flows, i, e);
      forall j | 0 <= j < |flows| && Belongs(flows, j, e) ensures j == i {
        assert FlowOf(flows, e) == Found(j);
      }
    case Ambiguous =>
    case Absent =>
  }

  // ----- How flows end

  ghost function Latest(a: nat, b: nat, c: nat): nat {
    if a >= b && a >= c then a else if b >= c then b else c
  }

  /** A flow that ends has been active until then, is inactive from then on, and is closed only if its
      socket was destroyed; a flow that has ended does not end again. */
  lemma {:induction false} FinishExactly(f: Flow, ts: nat, destroyed: bool)
    ensures FinishFlow(f, ts, destroyed) ==
            if f.active then f.(end := Latest(ts, f.last, f.first), active := false, closed := destroyed) else f
  {
  }

  /** Which flows an operation ends, and when: those of the destroyed socket, the UDP flows that were idle
      for thirty seconds as of the end of these, and all of them at close. */
  lemma {:induction false} EndsExactly(flows: seq<Flow>, op: Op, i: nat)
    requires i < |flows| && (op.DestroyOp? || op.IdleOp? || op.CloseOp?)
    ensures var after, f := Step(flows, op), flows[i];
            |after| == |flows| &&
            match op
            case DestroyOp(socket, ts) =>
              after[i] == if f.active && f.socket == socket
                          then f.(end := Latest(ts, f.last, f.first), active := false, closed := true) else f
            case IdleOp(now) =>
              var idle := f.last + 30_000_000_000;
              after[i] == if f.active && f.udp && now >= idle
                          then f.(end := Latest(idle, f.last, f.first), active := false, closed := false)
                          else f
            case CloseOp(ts) =>
              after[i] == if f.active
                          then f.(end := Latest(ts, f.last, f.first), active := false, closed := false)
                          else f
            case _ => true
  {
  }
}
