/** The flow table of the exporter: which flow an event belongs to, and how flows get their socket.
    A socket of zero means that none is known.  Only the fields that take part in the binding are
    modelled; flows are never removed, they become inactive. */
module FlowTable {
  import opened Wrappers

  datatype Flow = Flow(
    tuple: nat, netns: nat, socket: nat, first: nat, last: nat, end: nat,
    udp: bool, active: bool, closed: bool, socketAmbiguous: bool)

  datatype Lookup = Found(index: nat) | Absent | Ambiguous

  datatype Event = Event(tuple: nat, netns: nat, socket: nat, ts: nat, udp: bool)

  // ----- Finding the flow of an event

  function EndOf(f: Flow): nat {
    if f.end != 0 then f.end else f.last
  }

  /** Same endpoints and namespace, and the event lies in the lifetime of the flow. */
  predicate Eligible(f: Flow, e: Event) {
    f.tuple == e.tuple && f.netns == e.netns && e.ts >= f.first && (f.active || e.ts <= EndOf(f))
  }

  predicate Exact(f: Flow, e: Event) {
    Eligible(f, e) && e.socket != 0 && f.socket == e.socket
  }

  /** Not contradicted: the event or the flow has no socket yet. */
  predicate Candidate(f: Flow, e: Event) {
    Eligible(f, e) && !Exact(f, e) && !(e.socket != 0 && f.socket != 0)
  }

  function CountExact(flows: seq<Flow>, e: Event): nat {
    if flows == [] then 0
    else CountExact(flows[..|flows| - 1], e) + if Exact(flows[|flows| - 1], e) then 1 else 0
  }

  function CountCandidates(flows: seq<Flow>, e: Event): nat {
    if flows == [] then 0
    else CountCandidates(flows[..|flows| - 1], e) + if Candidate(flows[|flows| - 1], e) then 1 else 0
  }

  function LastExact(flows: seq<Flow>, e: Event): (i: nat)
    requires CountExact(flows, e) > 0
    ensures i < |flows| && Exact(flows[i], e)
  {
    if Exact(flows[|flows| - 1], e) then |flows| - 1 else LastExact(flows[..|flows| - 1], e)
  }

  function LastCandidate(flows: seq<Flow>, e: Event): (i: nat)
    requires CountCandidates(flows, e) > 0
    ensures i < |flows| && Candidate(flows[i], e)
  {
    if Candidate(flows[|flows| - 1], e) then |flows| - 1 else LastCandidate(flows[..|flows| - 1], e)
  }

  /** flow_lookup: one exact match wins, several are ambiguous; otherwise a single candidate. */
  function FlowOf(flows: seq<Flow>, e: Event): (r: Lookup)
    ensures r.Found? ==> r.index < |flows| && (Exact(flows[r.index], e) || Candidate(flows[r.index], e))
  {
    if CountExact(flows, e) == 1 then Found(LastExact(flows, e))
    else if CountExact(flows, e) > 1 || CountCandidates(flows, e) > 1 then Ambiguous
    else if CountCandidates(flows, e) == 1 then Found(LastCandidate(flows, e))
    else Absent
  }

  lemma {:induction false} CountsAreZero(flows: seq<Flow>, e: Event)
    ensures CountExact(flows, e) == 0 <==> forall i :: 0 <= i < |flows| ==> !Exact(flows[i], e)
    ensures CountCandidates(flows, e) == 0 <==> forall i :: 0 <= i < |flows| ==> !Candidate(flows[i], e)
  {
    if flows != [] {
      var front := flows[..|flows| - 1];
      CountsAreZero(front, e);
      assert forall i :: 0 <= i < |front| ==> front[i] == flows[i];
    }
  }

  /** What each answer says about all flows of the table. */
  lemma {:induction false} LookupMeaning(flows: seq<Flow>, e: Event)
    ensures FlowOf(flows, e).Absent? <==>
              forall i :: 0 <= i < |flows| ==> !Exact(flows[i], e) && !Candidate(flows[i], e)
    ensures FlowOf(flows, e).Found? && !Exact(flows[FlowOf(flows, e).index], e) ==>
              forall i :: 0 <= i < |flows| ==> !Exact(flows[i], e)
  {
    CountsAreZero(flows, e);
  }

  // ----- Changing the table

  /** flow_set_owner, as far as the socket goes. */
  function SetSocket(f: Flow, socket: nat): Flow {
    if socket == 0 then f
    else f.(socketAmbiguous := f.socketAmbiguous || (f.socket != 0 && f.socket != socket), socket := socket)
  }

  /** flow_from_socket and the non-terminal part of flow_from_packet; `stored` says whether a new
      flow can be allocated. */
  function Touch(flows: seq<Flow>, e: Event, stored: bool): seq<Flow> {
    match FlowOf(flows, e)
    case Ambiguous => flows
    case Found(i) =>
      var f := flows[i];
      flows[i := SetSocket(f.(last := if e.ts > f.last then e.ts else f.last), e.socket)]
    case Absent =>
      if stored
      then flows + [SetSocket(Flow(e.tuple, e.netns, e.socket, e.ts, e.ts, 0, e.udp, true, false, false), e.socket)]
      else flows
  }

  /** flow_finish */
  function FinishFlow(f: Flow, ts: nat, destroyed: bool): Flow {
    if !f.active then f
    else
      var end := if ts < f.last then f.last else ts;
      f.(end := if end < f.first then f.first else end, active := false, closed := destroyed)
  }

  datatype Op =
    | TouchOp(event: Event, stored: bool)
    | DestroyOp(socket: nat, ts: nat)
    | IdleOp(now: nat)
    | CloseOp(ts: nat)
    | ExtendOp(index: nat, ts: nat)

  const UDP_FLOW_IDLE_NS := 30_000_000_000

  function Finished(f: Flow, op: Op): Flow {
    match op
    case TouchOp(_, _) => f
    case ExtendOp(_, _) => f
    case DestroyOp(socket, ts) => if f.socket == socket then FinishFlow(f, ts, true) else f
    case IdleOp(now) =>
      if f.active && f.udp && now >= f.last + UDP_FLOW_IDLE_NS
      then FinishFlow(f, f.last + UDP_FLOW_IDLE_NS, false) else f
    case CloseOp(ts) => FinishFlow(f, ts, false)
  }

  function FinishAll(flows: seq<Flow>, op: Op): (r: seq<Flow>)
    ensures |r| == |flows| && forall i :: 0 <= i < |flows| ==> r[i] == Finished(flows[i], op)
  {
    seq(|flows|, i requires 0 <= i < |flows| => Finished(flows[i], op))
  }

  /** A completed I/O call extends the activity of its flow. */
  function Extend(flows: seq<Flow>, i: nat, ts: nat): seq<Flow> {
    if i < |flows| && flows[i].active && ts > flows[i].last then flows[i := flows[i].(last := ts)] else flows
  }

  function Step(flows: seq<Flow>, op: Op): seq<Flow> {
    match op
    case TouchOp(event, stored) => Touch(flows, event, stored)
    case ExtendOp(i, ts) => Extend(flows, i, ts)
    case _ => FinishAll(flows, op)
  }

  function Run(ops: seq<Op>): seq<Flow> {
    if ops == [] then [] else Step(Run(ops[..|ops| - 1]), ops[|ops| - 1])
  }

  // ----- A socket, once known, never changes

  /** The table only grows, endpoints and start stay, and a known socket stays. */
  ghost predicate Keeps(before: seq<Flow>, after: seq<Flow>) {
    |before| <= |after| &&
    forall i :: 0 <= i < |before| ==>
      after[i].tuple == before[i].tuple && after[i].netns == before[i].netns && after[i].first == before[i].first &&
      (before[i].socket != 0 ==> after[i].socket == before[i].socket) &&
      (after[i].active ==> before[i].active)
  }

  ghost predicate Unambiguous(flows: seq<Flow>) {
    forall i :: 0 <= i < |flows| ==> !flows[i].socketAmbiguous
  }

  lemma {:induction false} StepKeeps(flows: seq<Flow>, op: Op)
    requires Unambiguous(flows)
    ensures Keeps(flows, Step(flows, op)) && Unambiguous(Step(flows, op))
  {
  }

  lemma {:induction false} KeepsTransitive(a: seq<Flow>, b: seq<Flow>, c: seq<Flow>)
    requires Keeps(a, b) && Keeps(b, c)
    ensures Keeps(a, c)
  {
  }

  lemma {:induction false} RunUnambiguous(ops: seq<Op>)
    ensures Unambiguous(Run(ops))
    decreases |ops|
  {
    if ops != [] {
      RunUnambiguous(ops[..|ops| - 1]);
      StepKeeps(Run(ops[..|ops| - 1]), ops[|ops| - 1]);
    }
  }

  /** In every run, from any point of it to any later point, a flow keeps the socket it has, so that
      the ambiguity mark of the table is never set. */
  lemma {:induction false} SocketNeverChanges(ops: seq<Op>, more: seq<Op>)
    ensures Keeps(Run(ops), Run(ops + more)) && Unambiguous(Run(ops + more))
    decreases |more|
  {
    RunUnambiguous(ops + more);
    if more == [] {
      assert ops + more == ops;
    } else {
      var front, last := more[..|more| - 1], more[|more| - 1];
      SocketNeverChanges(ops, front);
      assert (ops + more)[..|ops + more| - 1] == ops + front;
      StepKeeps(Run(ops + front), last);
      KeepsTransitive(Run(ops), Run(ops + front), Run(ops + more));
    }
  }

  // ----- Active flows with the same endpoints have different sockets

  ghost predicate Distinguished(f: Flow, g: Flow) {
    f.active && g.active && f.tuple == g.tuple && f.netns == g.netns ==>
      f.socket != 0 && g.socket != 0 && f.socket != g.socket
  }

  ghost predicate AllDistinguished(flows: seq<Flow>) {
    forall i, j {:trigger Distinguished(flows[i], flows[j])} ::
      0 <= i < |flows| && 0 <= j < |flows| && i != j ==> Distinguished(flows[i], flows[j])
  }

  ghost predicate StartedBy(flows: seq<Flow>, now: nat) {
    forall i :: 0 <= i < |flows| ==> flows[i].first <= now
  }

  /** An event that is no earlier than the start of any flow keeps active flows apart. */
  lemma {:induction false} TouchDistinguishes(flows: seq<Flow>, e: Event, stored: bool)
    requires AllDistinguished(flows) && StartedBy(flows, e.ts)
    ensures AllDistinguished(Touch(flows, e, stored)) && StartedBy(Touch(flows, e, stored), e.ts)
  {
    LookupMeaning(flows, e);
    var after := Touch(flows, e, stored);
    forall i, j | 0 <= i < |after| && 0 <= j < |after| && i != j
      ensures Distinguished(after[i], after[j])
    {
      if i < |flows| && j < |flows| {
        assert Distinguished(flows[i], flows[j]);
      }
    }
  }

  /** Event times never go backwards: `now` is the time of the latest one. */
  ghost predicate Ordered(ops: seq<Op>, now: nat) {
    if ops == [] then true
    else
      var last := ops[|ops| - 1];
      if last.TouchOp? then last.event.ts <= now && Ordered(ops[..|ops| - 1], last.event.ts)
      else Ordered(ops[..|ops| - 1], now)
  }

  /** The event would open a flow beside an active one with the same endpoints that only starts
      later and cannot be told from it by the socket. */
  ghost predicate Clashes(flows: seq<Flow>, e: Event) {
    FlowOf(flows, e).Absent? &&
    exists i :: 0 <= i < |flows| && flows[i].active && flows[i].tuple == e.tuple && flows[i].netns == e.netns &&
      flows[i].first > e.ts && (flows[i].socket == 0 || e.socket == 0 || flows[i].socket == e.socket)
  }

  /** Exactly when one event, of whatever time, keeps active flows apart. */
  lemma {:induction false} TouchDistinguishesExactly(flows: seq<Flow>, e: Event)
    requires AllDistinguished(flows)
    ensures AllDistinguished(Touch(flows, e, true)) <==> !Clashes(flows, e)
  {
    LookupMeaning(flows, e);
    var after := Touch(flows, e, true);
    if Clashes(flows, e) {
      var i :| 0 <= i < |flows| && flows[i].active && flows[i].tuple == e.tuple && flows[i].netns == e.netns &&
               flows[i].first > e.ts && (flows[i].socket == 0 || e.socket == 0 || flows[i].socket == e.socket);
      assert !Distinguished(after[i], after[|flows|]);
    } else {
      forall i, j | 0 <= i < |after| && 0 <= j < |after| && i != j
        ensures Distinguished(after[i], after[j])
      {
        if i < |flows| && j < |flows| {
          assert Distinguished(flows[i], flows[j]);
        }
      }
    }
  }

  lemma {:induction false} UnstoredDistinguishes(flows: seq<Flow>, e: Event)
    requires AllDistinguished(flows)
    ensures AllDistinguished(Touch(flows, e, false))
  {
    if !FlowOf(flows, e).Absent? { TouchDistinguishesExactly(flows, e); }
  }

  lemma {:induction false} FinishDistinguishes(flows: seq<Flow>, op: Op)
    requires AllDistinguished(flows) && !op.TouchOp?
    ensures AllDistinguished(Step(flows, op))
  {
    var after := Step(flows, op);
    forall i, j | 0 <= i < |after| && 0 <= j < |after| && i != j
      ensures Distinguished(after[i], after[j])
    {
      assert Distinguished(flows[i], flows[j]);
    }
  }

  lemma {:induction false} OrderedRunDistinguishes(ops: seq<Op>, now: nat)
    requires Ordered(ops, now)
    ensures AllDistinguished(Run(ops)) && StartedBy(Run(ops), now)
    decreases |ops|
  {
    if ops != [] {
      var front, last := ops[..|ops| - 1], ops[|ops| - 1];
      if last.TouchOp? {
        OrderedRunDistinguishes(front, last.event.ts);
        TouchDistinguishes(Run(front), last.event, last.stored);
      } else {
        OrderedRunDistinguishes(front, now);
        FinishDistinguishes(Run(front), last);
      }
    }
  }

  /** When event times never go backwards, two active flows with the same endpoints and namespace
      always have different, known sockets. */
  lemma {:induction false} ActiveFlowsHaveDistinctSockets(ops: seq<Op>, now: nat, i: nat, j: nat)
    requires Ordered(ops, now) && i < |Run(ops)| && j < |Run(ops)| && i != j
    requires Run(ops)[i].active && Run(ops)[j].active
    requires Run(ops)[i].tuple == Run(ops)[j].tuple && Run(ops)[i].netns == Run(ops)[j].netns
    ensures Run(ops)[i].socket != 0 && Run(ops)[j].socket != 0 && Run(ops)[i].socket != Run(ops)[j].socket
  {
    OrderedRunDistinguishes(ops, now);
    assert Distinguished(Run(ops)[i], Run(ops)[j]);
  }

  /** Active flows were apart at every point of the run. */
  ghost predicate AlwaysDistinguished(ops: seq<Op>) {
    AllDistinguished(Run(ops)) && (ops == [] || AlwaysDistinguished(ops[..|ops| - 1]))
  }

  /** No event of the run opened a flow where it clashes. */
  ghost predicate NeverClashes(ops: seq<Op>) {
    ops == [] ||
    (NeverClashes(ops[..|ops| - 1]) &&
     var last := ops[|ops| - 1];
     !(last.TouchOp? && last.stored && Clashes(Run(ops[..|ops| - 1]), last.event)))
  }

  /** For every run, whatever the order of its event times: active flows with the same endpoints have
      different, known sockets throughout if and only if no event opened a flow beside a later one
      that its socket cannot tell from it. */
  lemma {:induction false} DistinguishedExactly(ops: seq<Op>)
    ensures AlwaysDistinguished(ops) <==> NeverClashes(ops)
  {
    if ops != [] {
      var front, last := ops[..|ops| - 1], ops[|ops| - 1];
      DistinguishedExactly(front);
      if AllDistinguished(Run(front)) {
        if !last.TouchOp? {
          FinishDistinguishes(Run(front), last);
        } else if last.stored {
          TouchDistinguishesExactly(Run(front), last.event);
        } else {
          UnstoredDistinguishes(Run(front), last.event);
        }
      }
    }
  }

  /** The order is needed: an event from before a flow started opens a second one beside it. */
  lemma {:induction false} BackwardTimeBreaksIt()
    ensures var late := Event(1, 1, 7, 10, false);
            var early := Event(1, 1, 7, 5, false);
            !AllDistinguished(Run([TouchOp(late, true), TouchOp(early, true)]))
  {
    var late := Event(1, 1, 7, 10, false);
    var early := Event(1, 1, 7, 5, false);
    var ops := [TouchOp(late, true), TouchOp(early, true)];
    assert ops[..1] == [TouchOp(late, true)] && ops[..1][..0] == [];
    LookupMeaning([], late);
    var one := Touch([], late, true);
    assert Run(ops[..1]) == one && |one| == 1;
    LookupMeaning(one, early);
    var two := Touch(one, early, true);
    assert Run(ops) == two && two == one + [two[1]];
    assert !Distinguished(two[0], two[1]);
  }

  // ----- Terminal packets

  /** An instance of the event's connection whose socket was destroyed before the event. */
  predicate Destroyed(f: Flow, e: Event) {
    !f.active && f.closed && f.socket == e.socket && f.tuple == e.tuple && f.netns == e.netns &&
    e.ts >= f.first && e.ts >= f.end
  }

  /** flow_find_destroyed, from position `i` on, with what was found before it. */
  function DestroyedFrom(flows: seq<Flow>, e: Event, i: nat, found: Option<nat>): Option<nat>
    requires i <= |flows|
    decreases |flows| - i
  {
    if i == |flows| then found
    else if !Destroyed(flows[i], e) then DestroyedFrom(flows, e, i + 1, found)
    else if found.Some? then None
    else DestroyedFrom(flows, e, i + 1, Some(i))
  }

  function FindDestroyed(flows: seq<Flow>, e: Event): Option<nat> {
    if e.socket == 0 then None else DestroyedFrom(flows, e, 0, None)
  }

  lemma {:induction false} DestroyedFromMeaning(flows: seq<Flow>, e: Event, i: nat, found: Option<nat>, k: nat)
    requires i <= |flows| && k < |flows| && (found.Some? ==> found.value < i && Destroyed(flows[found.value], e))
    requires forall j :: 0 <= j < i && Destroyed(flows[j], e) ==> found == Some(j)
    ensures DestroyedFrom(flows, e, i, found) == Some(k) <==>
            Destroyed(flows[k], e) && forall j :: 0 <= j < |flows| && Destroyed(flows[j], e) ==> j == k
    decreases |flows| - i
  {
    if i < |flows| {
      if !Destroyed(flows[i], e) {
        DestroyedFromMeaning(flows, e, i + 1, found, k);
      } else if found.None? {
        DestroyedFromMeaning(flows, e, i + 1, Some(i), k);
      } else {
        assert Destroyed(flows[found.value], e) && found.value != i;
      }
    }
  }

  /** A destroyed instance is named exactly when it is the only one. */
  lemma {:induction false} DestroyedMeaning(flows: seq<Flow>, e: Event, k: nat)
    requires k < |flows| && e.socket != 0
    ensures FindDestroyed(flows, e) == Some(k) <==>
            Destroyed(flows[k], e) && forall j :: 0 <= j < |flows| && Destroyed(flows[j], e) ==> j == k
  {
    DestroyedFromMeaning(flows, e, 0, None, k);
  }

  /** The flow that flow_from_packet gives to a packet. */
  function PacketFlow(flows: seq<Flow>, e: Event, terminal: bool, stored: bool): Option<nat> {
    match FlowOf(flows, e)
    case Ambiguous => None
    case Found(i) => Some(i)
    case Absent =>
      if terminal then FindDestroyed(flows, e) else if stored then Some(|flows|) else None
  }

  // ----- The table itself

  class Table {
    var flows: seq<Flow>

    constructor ()
      ensures flows == []
    {
      flows := [];
    }

    /** flow_lookup, in one pass over the table. */
    method Find(e: Event) returns (r: Lookup)
      ensures r == FlowOf(flows, e)
    {
      var exact, candidate, exacts, candidates := 0, 0, 0, 0;
      for i := 0 to |flows|
        invariant exacts == CountExact(flows[..i], e) && candidates == CountCandidates(flows[..i], e)
        invariant exacts > 0 ==> exact == LastExact(flows[..i], e)
        invariant candidates > 0 ==> candidate == LastCandidate(flows[..i], e)
      {
        var f := flows[i];
        assert flows[..i + 1][..i] == flows[..i] && flows[..i + 1][i] == f;
        if f.tuple != e.tuple || f.netns != e.netns || e.ts < f.first ||
           (!f.active && e.ts > (if f.end != 0 then f.end else f.last)) {
          continue;
        }
        if e.socket != 0 && f.socket == e.socket {
          exact, exacts := i, exacts + 1;
        } else if !(e.socket != 0 && f.socket != 0) {
          candidate, candidates := i, candidates + 1;
        }
      }
      assert flows[..|flows|] == flows;
      if exacts == 1 {
        return Found(exact);
      }
      if exacts > 1 || candidates > 1 {
        return Ambiguous;
      }
      return if candidates == 1 then Found(candidate) else Absent;
    }

    /** flow_from_socket: what the lookup says is done. */
    method TouchFlow(e: Event, stored: bool) returns (r: Option<nat>)
      modifies this
      ensures flows == Touch(old(flows), e, stored) && r == PacketFlow(old(flows), e, false, stored)
    {
      var found := Find(e);
      match found
      case Ambiguous =>
        return None;
      case Found(i) =>
        var f := flows[i];
        flows := flows[i := SetSocket(f.(last := if e.ts > f.last then e.ts else f.last), e.socket)];
        return Some(i);
      case Absent =>
        if !stored {
          return None;
        }
        var f := Flow(e.tuple, e.netns, e.socket, e.ts, e.ts, 0, e.udp, true, false, false);
        flows := flows + [SetSocket(f, e.socket)];
        return Some(|flows| - 1);
    }

    /** flow_find_destroyed */
    method LookBack(e: Event) returns (r: Option<nat>)
      ensures r == FindDestroyed(flows, e)
    {
      r := None;
      if e.socket == 0 {
        return;
      }
      for i := 0 to |flows|
        invariant DestroyedFrom(flows, e, i, r) == DestroyedFrom(flows, e, 0, None)
      {
        if Destroyed(flows[i], e) {
          if r.Some? {
            return None;
          }
          r := Some(i);
        }
      }
    }

    /** flow_from_packet: a terminal packet may refer back to a destroyed flow, but neither opens nor
        changes one. */
    method FromPacket(e: Event, terminal: bool, stored: bool) returns (r: Option<nat>)
      modifies this
      ensures flows == if terminal then old(flows) else Touch(old(flows), e, stored)
      ensures r == PacketFlow(old(flows), e, terminal, stored)
    {
      if !terminal {
        r := TouchFlow(e, stored);
        return;
      }
      var found := Find(e);
      match found
      case Ambiguous => return None;
      case Found(i) => return Some(i);
      case Absent => r := LookBack(e);
    }

    /** The three loops that call flow_finish: socket destruction, idle timeout and close. */
    method FinishMatching(op: Op)
      requires op.DestroyOp? || op.IdleOp? || op.CloseOp?
      modifies this
      ensures flows == Step(old(flows), op)
    {
      for i := 0 to |flows|
        invariant |flows| == |old(flows)|
        invariant forall k :: 0 <= k < |flows| ==>
          flows[k] == if k < i then Finished(old(flows)[k], op) else old(flows)[k]
      {
        flows := flows[i := Finished(flows[i], op)];
      }
      assert flows == FinishAll(old(flows), op);
    }
  }
}
