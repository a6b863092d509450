/** What the records of an I/O call say, told from the flows that were associated with it, and what a new
    call does to the table. */
module IoMeaning {
  import opened Wrappers
  import opened PendingIo

  // ----- The flow of a call

  /** All associations of the call named one flow. */
  ghost predicate OneFlow(links: seq<nat>) {
    forall a :: 0 <= a < |links| ==> links[a] == links[0]
  }

  /** The mark and the flow of an open call are what its associations say. */
  ghost predicate LinksTold(io: Io) {
    (forall a :: 0 <= a < |io.links| ==> io.links[a] != 0) &&
    (io.flowAmbiguous <==> !OneFlow(io.links)) &&
    io.flow == if io.links != [] && OneFlow(io.links) then io.links[0] else 0
  }

  ghost predicate AllLinksTold(ios: seq<Io>) {
    forall i :: 0 <= i < |ios| && ios[i].active ==> LinksTold(ios[i])
  }

  lemma {:induction false} LinkTells(io: Io, tgid: nat, tid: nat, start: nat, flow: nat)
    requires io.active && LinksTold(io)
    ensures var after := Linked(io, tgid, tid, start, flow);
            LinksTold(after) && after.active &&
            after.links == if io.tgid == tgid && io.tid == tid && io.start == start && flow != 0
                           then io.links + [flow] else io.links
  {
    var links := io.links + [flow];
    assert links[|io.links|] == flow;
    assert OneFlow(links) <==> OneFlow(io.links) && (io.links == [] || io.links[0] == flow) by {
      if OneFlow(links) {
        assert links[|io.links|] == links[0];
        assert forall a :: 0 <= a < |io.links| ==> links[a] == io.links[a];
      }
    }
  }

  lemma {:induction false} StepTells(s: State, op: Op, c: Context)
    requires AllLinksTold(s.ios)
    ensures AllLinksTold(Step(s, op, c).ios)
  {
    match op
    case StartOp(e, stored) =>
      var found := Find(s.ios, 0, e.func, e.tid);
      var s1 := if found.Some? then Finish(s, found.value, 0, true, c) else s;
      assert AllLinksTold(s1.ios);
    case ReturnOp(func, tid, result) =>
    case LinkOp(tgid, tid, start, flow) =>
      forall i | 0 <= i < |s.ios| && s.ios[i].active ensures LinksTold(Linked(s.ios[i], tgid, tid, start, flow)) {
        LinkTells(s.ios[i], tgid, tid, start, flow);
      }
    case CloseOp => CloseTells(s, 0, c);
  }

  lemma {:induction false} CloseTells(s: State, i: nat, c: Context)
    requires i <= |s.ios| && AllLinksTold(s.ios)
    ensures AllLinksTold(CloseFrom(s, i, c).ios)
    decreases |s.ios| - i
  {
    if i < |s.ios| { CloseTells(Finish(s, i, 0, true, c), i + 1, c); }
  }

  /** In every run an open call has the one flow that all its associations named, and is ambiguous exactly
      when they named two. */
  lemma {:induction false} EveryRunTellsLinks(ops: seq<Op>, cs: seq<Context>)
    requires |ops| == |cs|
    ensures AllLinksTold(Run(ops, cs).ios)
    decreases |ops|
  {
    if ops != [] {
      EveryRunTellsLinks(ops[..|ops| - 1], cs[..|cs| - 1]);
      StepTells(Run(ops[..|ops| - 1], cs[..|cs| - 1]), ops[|ops| - 1], cs[|cs| - 1]);
    }
  }

  // ----- What the end of a call says

  /** The flow that the bytes of a finished call are charged to: its own if that is still active, else the
      one that its socket alone identifies if it is a TCP call without contradiction, else none. */
  ghost function ChargedFlow(io: Io, c: Context): nat {
    if io.links != [] && OneFlow(io.links) && io.links[0] in c.activeFlows then io.links[0]
    else if OneFlow(io.links) && io.func in c.tcpFuncs && io.socket != 0 && io.socket in c.bySocket
    then c.bySocket[io.socket] else 0
  }

  /** The record that ends an open call: its flow is the one charged, or else the one it was associated
      with; it is marked as ambiguous exactly when its associations named two flows; and a positive
      result is charged if there is a flow to charge. */
  lemma {:induction false} EndExactly(s: State, i: nat, result: int, incomplete: bool, c: Context)
    requires Invariant(s) && i < |s.ios| && s.ios[i].active && LinksTold(s.ios[i])
    ensures var io, t := s.ios[i], Finish(s, i, result, incomplete, c);
            var charged := ChargedFlow(io, c);
            var flow := if charged != 0 then charged
                        else if io.links != [] && OneFlow(io.links) then io.links[0] else 0;
            t.log == s.log + [Ended(io.serial, flow, !OneFlow(io.links),
                                    if charged != 0 && result > 0 then result else 0, incomplete)] &&
            !t.ios[i].active
  {
    assert Sane(s.ios[i], s.serials);
  }

  /** A return ends the open call of its function and thread with its result, and is nothing without one. */
  lemma {:induction false} ReturnExactly(s: State, func: nat, tid: nat, result: int, c: Context, call: Option<nat>)
    requires Invariant(s) && OpenCall(s.ios, func, tid, call)
    ensures Step(s, ReturnOp(func, tid, result), c) ==
            if call.Some? then Finish(s, call.value, result, false, c) else s
  {
    FindIsOpenCall(s.ios, func, tid, call);
  }

  // ----- What a new call does

  /** The open call of a function and thread, if there is one. */
  ghost predicate OpenCall(ios: seq<Io>, func: nat, tid: nat, call: Option<nat>) {
    match call
    case Some(i) => i < |ios| && ios[i].active && ios[i].func == func && ios[i].tid == tid
    case None => forall i :: 0 <= i < |ios| ==> !(ios[i].active && ios[i].func == func && ios[i].tid == tid)
  }

  lemma {:induction false} FindIsOpenCall(ios: seq<Io>, func: nat, tid: nat, call: Option<nat>)
    requires AllExclusive(ios) && OpenCall(ios, func, tid, call)
    ensures Find(ios, 0, func, tid) == call
  {
    var found := Find(ios, 0, func, tid);
    if call.Some? {
      assert IsCall(ios[call.value], func, tid) && found.Some?;
      assert found.value < call.value ==> Exclusive(ios[found.value], ios[call.value]);
      assert call.value < found.value ==> Exclusive(ios[call.value], ios[found.value]);
    }
  }

  /** The thread is already in the same operation on the same socket. */
  ghost predicate Nested(ios: seq<Io>, e: Entry) {
    exists k :: 0 <= k < |ios| && ios[k].active && ios[k].tid == e.tid && ios[k].socket == e.socket && ios[k].tx == e.tx
  }

  /** The new call stands in a slot that was free or new, with one association if its flow is known. */
  ghost predicate NewCallAt(s: State, t: State, e: Entry, j: nat) {
    j <= |s.ios| && (j < |s.ios| ==> !s.ios[j].active) &&
    t.serials == s.serials + 1 && t.log == s.log + [Started(s.serials, e.flow)] &&
    |t.ios| == (if j < |s.ios| then |s.ios| else |s.ios| + 1) &&
    t.ios[j] == Io(s.serials, e.func, e.tid, e.tgid, if e.ioStart != 0 then e.ioStart else e.ts, e.socket, e.tx,
                   e.flow, false, true, true, if e.flow != 0 then [e.flow] else []) &&
    forall k :: 0 <= k < |s.ios| && k != j ==> t.ios[k] == s.ios[k]
  }

  /** What an entry event does: a repeated one nothing; any other ends an unfinished call of its function
      and thread as incomplete, and then starts a call unless the thread is already in the same
      operation on the same socket or there is no slot and no memory. */
  lemma {:induction false} StartExactly(s: State, e: Entry, stored: bool, c: Context, call: Option<nat>)
    requires Invariant(s) && OpenCall(s.ios, e.func, e.tid, call)
    ensures var t := Start(s, e, stored, c);
            if call.Some? && e.ioStart != 0 && s.ios[call.value].start == e.ioStart then t == s
            else
              var u := if call.Some? then Finish(s, call.value, 0, true, c) else s;
              if Nested(u.ios, e) || (!stored && forall k :: 0 <= k < |u.ios| ==> u.ios[k].active) then t == u
              else exists j :: 0 <= j <= |u.ios| && NewCallAt(u, t, e, j)
  {
    FindIsOpenCall(s.ios, e.func, e.tid, call);
    var u := if call.Some? then Finish(s, call.value, 0, true, c) else s;
    assert Nested(u.ios, e) <==> HasLogical(u.ios, e.tid, e.socket, e.tx) by {
      assert forall k :: 0 <= k < |u.ios| ==>
        (IsLogical(u.ios[k], e.tid, e.socket, e.tx) <==>
         u.ios[k].active && u.ios[k].tid == e.tid && u.ios[k].socket == e.socket && u.ios[k].tx == e.tx);
    }
    var j := FreeSlot(u.ios, 0);
    FreeSlotIsFirst(u.ios, 0);
    if !(call.Some? && e.ioStart != 0 && s.ios[call.value].start == e.ioStart) &&
       !Nested(u.ios, e) && (stored || j < |u.ios|) {
      assert Start(s, e, stored, c) == Activate(u, e);
      assert NewCallAt(u, Activate(u, e), e, j);
    }
  }

  lemma {:induction false} FreeSlotIsFirst(ios: seq<Io>, i: nat)
    requires i <= |ios|
    ensures forall k :: i <= k < FreeSlot(ios, i) ==> ios[k].active
    decreases |ios| - i
  {
    if i < |ios| && ios[i].active { FreeSlotIsFirst(ios, i + 1); }
  }
}
