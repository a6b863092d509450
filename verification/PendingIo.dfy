/** Pairing of socket I/O calls in the exporter: a table of calls in progress whose slots are reused,
    and the start and end records it emits.  `serial` numbers the activations and `log` is the
    output; both exist for the theorems.  A flow of zero means that none is associated. */
module PendingIo {
  import opened Wrappers

  datatype Io = Io(
    serial: nat, func: nat, tid: nat, tgid: nat, start: nat, socket: nat, tx: bool,
    flow: nat, flowAmbiguous: bool, visible: bool, active: bool, links: seq<nat>)

  /** `links` are the flows that were associated with the call so far, in order. */
  function NewLinks(flow: nat): seq<nat> {
    if flow != 0 then [flow] else []
  }

  /** `charged` is the number of payload bytes added to the flow of the record. */
  datatype Record =
    | Started(serial: nat, flow: nat)
    | Ended(serial: nat, flow: nat, ambiguous: bool, charged: nat, incomplete: bool)

  datatype State = State(ios: seq<Io>, serials: nat, log: seq<Record>)

  /** What the rest of the exporter knows at the time of an event: the active flows, the flow that a
      socket alone identifies, and which functions are TCP calls. */
  datatype Context = Context(activeFlows: set<nat>, bySocket: map<nat, nat>, tcpFuncs: set<nat>)

  /** An I/O entry event; `ioStart` is the start time found in it, zero if none, and `flow` is the
      flow that flow_from_socket gives for a TCP call, zero if none. */
  datatype Entry = Entry(func: nat, tid: nat, tgid: nat, socket: nat, tx: bool, ts: nat, ioStart: nat, flow: nat)

  datatype Op =
    | StartOp(entry: Entry, stored: bool)
    | ReturnOp(func: nat, tid: nat, result: int)
    | LinkOp(tgid: nat, tid: nat, start: nat, flow: nat)
    | CloseOp

  // ----- Finding calls

  predicate IsCall(io: Io, func: nat, tid: nat) {
    io.active && io.func == func && io.tid == tid
  }

  predicate IsLogical(io: Io, tid: nat, socket: nat, tx: bool) {
    io.active && io.tid == tid && io.socket == socket && io.tx == tx
  }

  /** pending_io_find, from position `i` on. */
  function Find(ios: seq<Io>, i: nat, func: nat, tid: nat): (r: Option<nat>)
    requires i <= |ios|
    ensures r.Some? ==> i <= r.value < |ios| && IsCall(ios[r.value], func, tid)
    ensures r.None? ==> forall k :: i <= k < |ios| ==> !IsCall(ios[k], func, tid)
    decreases |ios| - i
  {
    if i == |ios| then None else if IsCall(ios[i], func, tid) then Some(i) else Find(ios, i + 1, func, tid)
  }

  /** The first slot that is free, or the length of the table. */
  function FreeSlot(ios: seq<Io>, i: nat): (r: nat)
    requires i <= |ios|
    ensures i <= r <= |ios| && (r < |ios| ==> !ios[r].active)
    decreases |ios| - i
  {
    if i == |ios| || !ios[i].active then i else FreeSlot(ios, i + 1)
  }

  predicate HasLogical(ios: seq<Io>, tid: nat, socket: nat, tx: bool) {
    exists i :: 0 <= i < |ios| && IsLogical(ios[i], tid, socket, tx)
  }

  // ----- Finishing

  /** The flow a finished call is charged to. */
  function FinalFlow(io: Io, c: Context): nat {
    if io.flow != 0 && io.flow in c.activeFlows then io.flow
    else if !io.flowAmbiguous && io.func in c.tcpFuncs && io.socket != 0 && io.socket in c.bySocket
    then c.bySocket[io.socket] else 0
  }

  function StartRecord(io: Io): seq<Record> {
    if io.visible then [] else [Started(io.serial, io.flow)]
  }

  /** pending_io_finish */
  function Finish(s: State, i: nat, result: int, incomplete: bool, c: Context): State
    requires i < |s.ios|
  {
    var io := s.ios[i];
    if !io.active then s
    else
      var flow := FinalFlow(io, c);
      var done := if flow != 0 then io.(flow := flow) else io;
      var charged := if flow != 0 && result > 0 then result else 0;
      s.(ios := s.ios[i := done.(active := false, visible := true)],
         log := s.log + StartRecord(done) +
                [Ended(done.serial, done.flow, done.flowAmbiguous, charged, incomplete)])
  }

  // ----- The operations

  /** Activate a slot for a new call and emit its start.  The program first looks for an open call
      of the same function and thread once more; there is none left, as `NoneLeft` shows. */
  function Activate(s: State, e: Entry): State {
    var i := FreeSlot(s.ios, 0);
    var io := Io(s.serials, e.func, e.tid, e.tgid, if e.ioStart != 0 then e.ioStart else e.ts, e.socket, e.tx,
                 e.flow, false, true, true, NewLinks(e.flow));
    s.(ios := if i < |s.ios| then s.ios[i := io] else s.ios + [io], serials := s.serials + 1,
       log := s.log + [Started(s.serials, e.flow)])
  }

  /** pending_io_start */
  function Start(s: State, e: Entry, stored: bool, c: Context): State {
    var found := Find(s.ios, 0, e.func, e.tid);
    if found.Some? && e.ioStart != 0 && s.ios[found.value].start == e.ioStart then s
    else
      var s1 := if found.Some? then Finish(s, found.value, 0, true, c) else s;
      if HasLogical(s1.ios, e.tid, e.socket, e.tx) then s1
      else if FreeSlot(s1.ios, 0) == |s1.ios| && !stored then s1
      else Activate(s1, e)
  }

  /** The association loop of export_packet_io_link on one call. */
  function Linked(io: Io, tgid: nat, tid: nat, start: nat, flow: nat): Io {
    if !io.active || io.tgid != tgid || io.tid != tid || io.start != start || flow == 0 then io
    else if io.flowAmbiguous || (io.flow != 0 && io.flow != flow)
    then io.(flowAmbiguous := true, flow := 0, links := io.links + [flow])
    else io.(flow := flow, links := io.links + [flow])
  }

  function LinkAll(ios: seq<Io>, tgid: nat, tid: nat, start: nat, flow: nat): (r: seq<Io>)
    ensures |r| == |ios| && forall i :: 0 <= i < |ios| ==> r[i] == Linked(ios[i], tgid, tid, start, flow)
  {
    seq(|ios|, i requires 0 <= i < |ios| => Linked(ios[i], tgid, tid, start, flow))
  }

  /** The closing loop of perfetto_export_close. */
  function CloseFrom(s: State, i: nat, c: Context): (t: State)
    requires i <= |s.ios|
    ensures |t.ios| == |s.ios|
    decreases |s.ios| - i
  {
    if i == |s.ios| then s else CloseFrom(Finish(s, i, 0, true, c), i + 1, c)
  }

  function Step(s: State, op: Op, c: Context): State {
    match op
    case StartOp(e, stored) => Start(s, e, stored, c)
    case ReturnOp(func, tid, result) =>
      var found := Find(s.ios, 0, func, tid);
      if found.Some? then Finish(s, found.value, result, false, c) else s
    case LinkOp(tgid, tid, start, flow) => s.(ios := LinkAll(s.ios, tgid, tid, start, flow))
    case CloseOp => CloseFrom(s, 0, c)
  }

  function Run(ops: seq<Op>, cs: seq<Context>): State
    requires |ops| == |cs|
  {
    if ops == [] then State([], 0, [])
    else Step(Run(ops[..|ops| - 1], cs[..|cs| - 1]), ops[|ops| - 1], cs[|cs| - 1])
  }

  // ----- The invariant

  /** At most one open call per function and thread, and per thread, socket and direction. */
  ghost predicate Exclusive(a: Io, b: Io) {
    a.active && b.active ==>
      a.serial != b.serial && !(a.func == b.func && a.tid == b.tid) &&
      !(a.tid == b.tid && a.socket == b.socket && a.tx == b.tx)
  }

  ghost predicate AllExclusive(ios: seq<Io>) {
    forall i, j {:trigger Exclusive(ios[i], ios[j])} :: 0 <= i < j < |ios| ==> Exclusive(ios[i], ios[j])
  }

  ghost predicate Sane(io: Io, serials: nat) {
    io.visible && io.serial < serials && (io.flowAmbiguous ==> io.flow == 0)
  }

  ghost predicate AllSane(ios: seq<Io>, serials: nat) {
    forall i :: 0 <= i < |ios| ==> Sane(ios[i], serials)
  }

  ghost predicate Open(ios: seq<Io>, serial: nat) {
    exists i :: 0 <= i < |ios| && ios[i].active && ios[i].serial == serial
  }

  /** The records of one call, in order: true for a start, false for an end. */
  ghost function Story(log: seq<Record>, serial: nat): seq<bool> {
    if log == [] then []
    else
      var last := log[|log| - 1];
      Story(log[..|log| - 1], serial) + if last.serial == serial then [last.Started?] else []
  }

  /** One start while a call is open, one start and then one end afterwards, nothing before. */
  ghost predicate Paired(s: State) {
    forall k: nat ::
      Story(s.log, k) == if k >= s.serials then [] else if Open(s.ios, k) then [true] else [true, false]
  }

  /** A call with an ambiguous flow ends without a flow and without charging any bytes. */
  ghost predicate AmbiguousUncharged(log: seq<Record>) {
    forall i :: 0 <= i < |log| && log[i].Ended? && log[i].ambiguous ==> log[i].flow == 0 && log[i].charged == 0
  }

  ghost predicate Invariant(s: State) {
    AllExclusive(s.ios) && AllSane(s.ios, s.serials) && Paired(s) && AmbiguousUncharged(s.log)
  }

  // ----- Finishing keeps it

  lemma {:induction false} StoryAppend(log: seq<Record>, r: Record, serial: nat)
    ensures Story(log + [r], serial) == Story(log, serial) + if r.serial == serial then [r.Started?] else []
  {
    assert (log + [r])[..|log|] == log;
  }

  lemma {:induction false} OpenAfterFinish(ios: seq<Io>, i: nat, io: Io, k: nat)
    requires AllExclusive(ios) && i < |ios| && ios[i].active && !io.active
    ensures Open(ios[i := io], k) <==> Open(ios, k) && k != ios[i].serial
  {
    var after := ios[i := io];
    if Open(ios, k) && k != ios[i].serial {
      var j :| 0 <= j < |ios| && ios[j].active && ios[j].serial == k;
      assert after[j] == ios[j];
    }
    if Open(after, k) {
      var j :| 0 <= j < |after| && after[j].active && after[j].serial == k;
      assert after[j] == ios[j];
      assert if i < j then Exclusive(ios[i], ios[j]) else Exclusive(ios[j], ios[i]);
    }
  }

  lemma {:induction false} DeactivateExclusive(ios: seq<Io>, i: nat, io: Io)
    requires AllExclusive(ios) && i < |ios| && !io.active
    ensures AllExclusive(ios[i := io])
  {
    var after := ios[i := io];
    forall a, b | 0 <= a < b < |after| ensures Exclusive(after[a], after[b]) {
      assert Exclusive(ios[a], ios[b]);
    }
  }

  lemma {:induction false} FinishKeeps(s: State, i: nat, result: int, incomplete: bool, c: Context)
    requires Invariant(s) && i < |s.ios|
    ensures var t := Finish(s, i, result, incomplete, c);
            Invariant(t) && |t.ios| == |s.ios| && !t.ios[i].active && t.serials == s.serials &&
            forall k :: 0 <= k < |s.ios| && k != i ==> t.ios[k] == s.ios[k]
  {
    var io := s.ios[i];
    if io.active {
      assert Sane(io, s.serials);
      var t := Finish(s, i, result, incomplete, c);
      DeactivateExclusive(s.ios, i, t.ios[i]);
      var r := t.log[|t.log| - 1];
      assert t.log == s.log + [r];
      assert Open(s.ios, io.serial);
      forall k: nat
        ensures Story(t.log, k) == if k >= t.serials then [] else if Open(t.ios, k) then [true] else [true, false]
      {
        StoryAppend(s.log, r, k);
        OpenAfterFinish(s.ios, i, t.ios[i], k);
      }
    }
  }

  // ----- Starting keeps it

  lemma {:induction false} OpenAfterStart(ios: seq<Io>, after: seq<Io>, i: nat, io: Io, k: nat)
    requires io.active && i <= |ios| && (i < |ios| ==> !ios[i].active)
    requires after == if i < |ios| then ios[i := io] else ios + [io]
    ensures Open(after, k) <==> Open(ios, k) || k == io.serial
  {
    if Open(ios, k) {
      var j :| 0 <= j < |ios| && ios[j].active && ios[j].serial == k;
      assert after[j] == ios[j];
    }
    if k == io.serial { assert after[i] == io; }
    if Open(after, k) {
      var j :| 0 <= j < |after| && after[j].active && after[j].serial == k;
      if j != i { assert after[j] == ios[j]; }
    }
  }

  lemma {:induction false} FreshSerial(ios: seq<Io>, serials: nat)
    requires AllSane(ios, serials)
    ensures !Open(ios, serials)
  {
    assert forall i :: 0 <= i < |ios| ==> Sane(ios[i], serials);
  }

  lemma {:induction false} ActivateKeeps(s: State, e: Entry)
    requires Invariant(s) && Find(s.ios, 0, e.func, e.tid).None? && !HasLogical(s.ios, e.tid, e.socket, e.tx)
    ensures Invariant(Activate(s, e))
  {
    var t := Activate(s, e);
    var i := FreeSlot(s.ios, 0);
    var io := t.ios[i];
    forall a, b | 0 <= a < b < |t.ios| ensures Exclusive(t.ios[a], t.ios[b]) {
      if a != i && b != i {
        assert Exclusive(s.ios[a], s.ios[b]);
      } else {
        var other := if a == i then b else a;
        assert t.ios[other] == s.ios[other];
        assert Sane(s.ios[other], s.serials);
        assert !IsCall(s.ios[other], e.func, e.tid) && !IsLogical(s.ios[other], e.tid, e.socket, e.tx);
      }
    }
    forall k: nat
      ensures Story(t.log, k) == if k >= t.serials then [] else if Open(t.ios, k) then [true] else [true, false]
    {
      StoryAppend(s.log, Started(s.serials, e.flow), k);
      OpenAfterStart(s.ios, t.ios, i, io, k);
      FreshSerial(s.ios, s.serials);
    }
  }

  /** At most one open call per function and thread, so finishing the one found leaves none. */
  lemma {:induction false} NoneLeft(ios: seq<Io>, after: seq<Io>, i: nat, func: nat, tid: nat)
    requires AllExclusive(ios) && i < |ios| && IsCall(ios[i], func, tid)
    requires |after| == |ios| && !after[i].active && forall k :: 0 <= k < |ios| && k != i ==> after[k] == ios[k]
    ensures Find(after, 0, func, tid).None?
  {
    forall k | 0 <= k < |after| ensures !IsCall(after[k], func, tid) {
      if k != i {
        assert if i < k then Exclusive(ios[i], ios[k]) else Exclusive(ios[k], ios[i]);
      }
    }
  }

  lemma {:induction false} StartKeeps(s: State, e: Entry, stored: bool, c: Context)
    requires Invariant(s)
    ensures Invariant(Start(s, e, stored, c))
  {
    var found := Find(s.ios, 0, e.func, e.tid);
    if found.Some? {
      FinishKeeps(s, found.value, 0, true, c);
      var s1 := Finish(s, found.value, 0, true, c);
      NoneLeft(s.ios, s1.ios, found.value, e.func, e.tid);
      if !HasLogical(s1.ios, e.tid, e.socket, e.tx) { ActivateKeeps(s1, e); }
    } else if !HasLogical(s.ios, e.tid, e.socket, e.tx) {
      ActivateKeeps(s, e);
    }
  }

  // ----- Linking and closing keep it

  lemma {:induction false} OpenAfterLink(ios: seq<Io>, tgid: nat, tid: nat, start: nat, flow: nat, k: nat)
    ensures Open(LinkAll(ios, tgid, tid, start, flow), k) <==> Open(ios, k)
  {
    var after := LinkAll(ios, tgid, tid, start, flow);
    assert forall i :: 0 <= i < |ios| ==> after[i].active == ios[i].active && after[i].serial == ios[i].serial;
  }

  lemma {:induction false} LinkKeeps(s: State, tgid: nat, tid: nat, start: nat, flow: nat)
    requires Invariant(s)
    ensures Invariant(s.(ios := LinkAll(s.ios, tgid, tid, start, flow)))
  {
    var ios := LinkAll(s.ios, tgid, tid, start, flow);
    forall a, b | 0 <= a < b < |ios| ensures Exclusive(ios[a], ios[b]) {
      assert Exclusive(s.ios[a], s.ios[b]);
    }
    forall k: nat ensures Open(ios, k) <==> Open(s.ios, k) {
      OpenAfterLink(s.ios, tgid, tid, start, flow, k);
    }
    forall i | 0 <= i < |ios| ensures Sane(ios[i], s.serials) {
      assert Sane(s.ios[i], s.serials);
    }
  }

  lemma {:induction false} CloseKeeps(s: State, i: nat, c: Context)
    requires Invariant(s) && i <= |s.ios| && forall k :: 0 <= k < i ==> !s.ios[k].active
    ensures var t := CloseFrom(s, i, c);
            Invariant(t) && t.serials == s.serials && forall k :: 0 <= k < |t.ios| ==> !t.ios[k].active
    decreases |s.ios| - i
  {
    if i < |s.ios| {
      FinishKeeps(s, i, 0, true, c);
      CloseKeeps(Finish(s, i, 0, true, c), i + 1, c);
    }
  }

  // ----- Whole runs

  lemma {:induction false} EveryRunKeepsInvariant(ops: seq<Op>, cs: seq<Context>)
    requires |ops| == |cs|
    ensures Invariant(Run(ops, cs))
    decreases |ops|
  {
    if ops != [] {
      EveryRunKeepsInvariant(ops[..|ops| - 1], cs[..|cs| - 1]);
      var s, c := Run(ops[..|ops| - 1], cs[..|cs| - 1]), cs[|cs| - 1];
      match ops[|ops| - 1]
      case StartOp(e, stored) => StartKeeps(s, e, stored, c);
      case ReturnOp(func, tid, result) =>
        var found := Find(s.ios, 0, func, tid);
        if found.Some? { FinishKeeps(s, found.value, result, false, c); }
      case LinkOp(tgid, tid, start, flow) => LinkKeeps(s, tgid, tid, start, flow);
      case CloseOp => CloseKeeps(s, 0, c);
    }
  }

  /** Every call that was activated has emitted exactly one start, and after close exactly one end
      behind it; nothing is open then. */
  lemma {:induction false} StartsAndEndsPair(ops: seq<Op>, cs: seq<Context>, s: State, k: nat)
    requires |ops| == |cs| && s == Run(ops, cs) && k < s.serials
    ensures Story(s.log, k) == [true] || Story(s.log, k) == [true, false]
    ensures ops != [] && ops[|ops| - 1] == CloseOp ==> Story(s.log, k) == [true, false]
    ensures ops != [] && ops[|ops| - 1] == CloseOp ==> forall i :: 0 <= i < |s.ios| ==> !s.ios[i].active
  {
    EveryRunKeepsInvariant(ops, cs);
    if ops != [] && ops[|ops| - 1] == CloseOp {
      EveryRunKeepsInvariant(ops[..|ops| - 1], cs[..|cs| - 1]);
      CloseKeeps(Run(ops[..|ops| - 1], cs[..|cs| - 1]), 0, cs[|cs| - 1]);
      assert !Open(s.ios, k);
    }
  }

  /** Open calls exclude each other, and an ambiguous association is never used. */
  lemma {:induction false} OpenCallsAreExclusive(ops: seq<Op>, cs: seq<Context>, s: State, i: nat, j: nat)
    requires |ops| == |cs| && s == Run(ops, cs)
    requires i < j < |s.ios| && s.ios[i].active && s.ios[j].active
    ensures !(s.ios[i].func == s.ios[j].func && s.ios[i].tid == s.ios[j].tid)
    ensures !(s.ios[i].tid == s.ios[j].tid && s.ios[i].socket == s.ios[j].socket && s.ios[i].tx == s.ios[j].tx)
    ensures s.ios[i].flowAmbiguous ==> s.ios[i].flow == 0
  {
    EveryRunKeepsInvariant(ops, cs);
    assert Exclusive(s.ios[i], s.ios[j]) && Sane(s.ios[i], s.serials);
  }

  /** The end of a call that names no flow and charges no bytes. */
  ghost predicate EndsUnattributed(r: Record, serial: nat) {
    r.Ended? && r.serial == serial && r.ambiguous && r.flow == 0 && r.charged == 0
  }

  /** The call in a slot is open and its flow is ambiguous. */
  ghost predicate StillAmbiguous(s: State, i: nat, serial: nat) {
    i < |s.ios| && s.ios[i].active && s.ios[i].serial == serial && s.ios[i].flowAmbiguous && s.ios[i].flow == 0
  }

  /** Behind the first `n` records the call ended without a flow. */
  ghost predicate EndedSince(log: seq<Record>, n: nat, serial: nat) {
    exists j :: n <= j < |log| && EndsUnattributed(log[j], serial)
  }

  /** No operation takes the mark off an open call, and its end names no flow and charges no bytes. */
  lemma {:induction false} AmbiguityStays(s: State, op: Op, c: Context, i: nat)
    requires Invariant(s) && i < |s.ios| && s.ios[i].active && s.ios[i].flowAmbiguous
    ensures var t := Step(s, op, c);
            StillAmbiguous(t, i, s.ios[i].serial) || EndedSince(t.log, |s.log|, s.ios[i].serial)
  {
    assert Sane(s.ios[i], s.serials);
    match op
    case CloseOp =>
      CloseEnds(s, 0, i, c);
      var log := CloseFrom(s, 0, c).log;
      var j :| 0 <= j < |log[|s.log|..]| && log[|s.log|..][j] == Ended(s.ios[i].serial, 0, true, 0, true);
      assert EndsUnattributed(log[|s.log| + j], s.ios[i].serial);
    case StartOp(e, stored) =>
      var found := Find(s.ios, 0, e.func, e.tid);
      if found == Some(i) {
        FinishEnds(s, i, 0, true, c);
        var s1 := Finish(s, i, 0, true, c);
        var t := Start(s, e, stored, c);
        assert t == s || EndsUnattributed(t.log[|s.log|], s.ios[i].serial);
      } else if found.Some? {
        FinishKeeps(s, found.value, 0, true, c);
      }
    case ReturnOp(func, tid, result) =>
      var found := Find(s.ios, 0, func, tid);
      if found == Some(i) {
        FinishEnds(s, i, result, false, c);
        assert EndsUnattributed(Step(s, op, c).log[|s.log|], s.ios[i].serial);
      }
    case LinkOp(_, _, _, _) =>
  }

  lemma {:induction false} StepExtends(s: State, op: Op, c: Context)
    ensures s.log <= Step(s, op, c).log
  {
    if op.CloseOp? { CloseExtends(s, 0, c); }
  }

  /** Ambiguity is final: from any point of any run to any later point, an open call with an ambiguous
      flow is still open and ambiguous, or has ended without a flow and without charging any bytes. */
  lemma {:induction false} AmbiguityIsFinal(
      ops: seq<Op>, cs: seq<Context>, more: seq<Op>, ds: seq<Context>, i: nat)
    requires |ops| == |cs| && |more| == |ds|
    requires i < |Run(ops, cs).ios| && Run(ops, cs).ios[i].active && Run(ops, cs).ios[i].flowAmbiguous
    ensures var s, t := Run(ops, cs), Run(ops + more, cs + ds);
            s.log <= t.log &&
            (StillAmbiguous(t, i, s.ios[i].serial) || EndedSince(t.log, |s.log|, s.ios[i].serial))
    decreases |more|
  {
    var s := Run(ops, cs);
    if more == [] {
      EveryRunKeepsInvariant(ops, cs);
      assert ops + more == ops && cs + ds == cs && Sane(s.ios[i], s.serials);
    } else {
      var front, op, cfront, c := more[..|more| - 1], more[|more| - 1], ds[..|ds| - 1], ds[|ds| - 1];
      var u := Run(ops + front, cs + cfront);
      AmbiguityIsFinal(ops, cs, front, cfront, i);
      RunOneMore(ops, cs, more, ds);
      EveryRunKeepsInvariant(ops + front, cs + cfront);
      StepExtends(u, op, c);
      if StillAmbiguous(u, i, s.ios[i].serial) {
        AmbiguityStays(u, op, c, i);
      } else {
        var j :| |s.log| <= j < |u.log| && EndsUnattributed(u.log[j], s.ios[i].serial);
        assert EndsUnattributed(Step(u, op, c).log[j], s.ios[i].serial);
      }
    }
  }

  lemma {:induction false} RunOneMore(ops: seq<Op>, cs: seq<Context>, more: seq<Op>, ds: seq<Context>)
    requires |ops| == |cs| && |more| == |ds| && more != []
    ensures Run(ops + more, cs + ds) ==
            Step(Run(ops + more[..|more| - 1], cs + ds[..|ds| - 1]), more[|more| - 1], ds[|ds| - 1])
  {
    assert (ops + more)[..|ops + more| - 1] == ops + more[..|more| - 1];
    assert (cs + ds)[..|cs + ds| - 1] == cs + ds[..|ds| - 1];
  }

  lemma {:induction false} FinishEnds(s: State, i: nat, result: int, incomplete: bool, c: Context)
    requires i < |s.ios| && s.ios[i].active && s.ios[i].flowAmbiguous && Sane(s.ios[i], s.serials)
    ensures var t := Finish(s, i, result, incomplete, c);
            t.log == s.log + [Ended(s.ios[i].serial, 0, true, 0, incomplete)]
  {
  }

  lemma {:induction false} CloseEnds(s: State, k: nat, i: nat, c: Context)
    requires Invariant(s) && k <= i < |s.ios| && s.ios[i].active && s.ios[i].flowAmbiguous
    ensures var t := CloseFrom(s, k, c);
            s.log <= t.log && Ended(s.ios[i].serial, 0, true, 0, true) in t.log[|s.log|..]
    decreases |s.ios| - k
  {
    FinishKeeps(s, k, 0, true, c);
    var s1 := Finish(s, k, 0, true, c);
    if k == i {
      assert Sane(s.ios[i], s.serials);
      FinishEnds(s, i, 0, true, c);
      CloseExtends(s1, k + 1, c);
      assert CloseFrom(s1, k + 1, c).log[|s.log|] == s1.log[|s.log|];
    } else {
      CloseEnds(s1, k + 1, i, c);
    }
  }

  lemma {:induction false} CloseExtends(s: State, k: nat, c: Context)
    requires k <= |s.ios|
    ensures s.log <= CloseFrom(s, k, c).log
    decreases |s.ios| - k
  {
    if k < |s.ios| { CloseExtends(Finish(s, k, 0, true, c), k + 1, c); }
  }

  // ----- The table itself

  class Table {
    var ios: seq<Io>
    var serials: nat
    var log: seq<Record>

    ghost function Model(): State
      reads this
    {
      State(ios, serials, log)
    }

    constructor ()
      ensures Model() == Run([], [])
    {
      ios, serials, log := [], 0, [];
    }

    /** pending_io_find */
    method FindCall(func: nat, tid: nat) returns (r: Option<nat>)
      ensures r == Find(ios, 0, func, tid)
    {
      for i := 0 to |ios|
        invariant Find(ios, 0, func, tid) == Find(ios, i, func, tid)
      {
        if ios[i].active && ios[i].func == func && ios[i].tid == tid {
          return Some(i);
        }
      }
      return None;
    }

    /** pending_io_find_logical */
    method FindLogical(tid: nat, socket: nat, tx: bool) returns (r: bool)
      ensures r == HasLogical(ios, tid, socket, tx)
    {
      for i := 0 to |ios|
        invariant forall k :: 0 <= k < i ==> !IsLogical(ios[k], tid, socket, tx)
      {
        if ios[i].active && ios[i].tid == tid && ios[i].socket == socket && ios[i].tx == tx {
          assert IsLogical(ios[i], tid, socket, tx);
          return true;
        }
      }
      return false;
    }

    /** pending_io_finish */
    method FinishCall(i: nat, result: int, incomplete: bool, c: Context)
      requires i < |ios|
      modifies this`ios, this`log
      ensures Model() == Finish(old(Model()), i, result, incomplete, c)
    {
      var io := ios[i];
      if !io.active {
        return;
      }
      var flow := FinalFlow(io, c);
      var charged := 0;
      if flow != 0 {
        io := io.(flow := flow);
        if result > 0 {
          charged := result;
        }
      }
      if !io.visible {
        log := log + [Started(io.serial, io.flow)];
        io := io.(visible := true);
      } else {
        assert log + [] == log;
      }
      log := log + [Ended(io.serial, io.flow, io.flowAmbiguous, charged, incomplete)];
      ios := ios[i := io.(active := false)];
    }

    /** pending_io_add and pending_io_emit_start for a new call. */
    method Add(e: Entry, stored: bool)
      modifies this
      ensures Model() == if FreeSlot(old(ios), 0) == |old(ios)| && !stored then old(Model())
                         else Activate(old(Model()), e)
    {
      var slot := 0;
      while slot < |ios| && ios[slot].active
        invariant slot <= |ios| && FreeSlot(ios, 0) == FreeSlot(ios, slot)
      {
        slot := slot + 1;
      }
      if slot == |ios| && !stored {
        return;
      }
      var io := Io(serials, e.func, e.tid, e.tgid, if e.ioStart != 0 then e.ioStart else e.ts, e.socket, e.tx,
                   e.flow, false, true, true, NewLinks(e.flow));
      ios := if slot < |ios| then ios[slot := io] else ios + [io];
      log := log + [Started(serials, e.flow)];
      serials := serials + 1;
    }

    /** pending_io_start */
    method StartCall(e: Entry, stored: bool, c: Context)
      modifies this
      ensures Model() == Start(old(Model()), e, stored, c)
    {
      var found := FindCall(e.func, e.tid);
      if found.Some? && e.ioStart != 0 && ios[found.value].start == e.ioStart {
        return;
      }
      if found.Some? {
        FinishCall(found.value, 0, true, c);
      }
      var logical := FindLogical(e.tid, e.socket, e.tx);
      if logical {
        return;
      }
      Add(e, stored);
    }

    /** The association loop of export_packet_io_link. */
    method LinkFlow(tgid: nat, tid: nat, start: nat, flow: nat)
      modifies this`ios
      ensures ios == LinkAll(old(ios), tgid, tid, start, flow)
    {
      for i := 0 to |ios|
        invariant |ios| == |old(ios)|
        invariant forall k :: 0 <= k < |ios| ==>
          ios[k] == if k < i then Linked(old(ios)[k], tgid, tid, start, flow) else old(ios)[k]
      {
        var io := ios[i];
        if !(!io.active || io.tgid != tgid || io.tid != tid || io.start != start || flow == 0) {
          if io.flow != 0 && io.flow != flow {
            io := io.(flowAmbiguous := true);
          }
          io := io.(flow := if io.flowAmbiguous then 0 else flow);
          io := io.(links := io.links + [flow]);
        }
        ios := ios[i := io];
      }
    }

    /** The closing loop of perfetto_export_close. */
    method CloseAll(c: Context)
      modifies this
      ensures Model() == CloseFrom(old(Model()), 0, c)
    {
      for i := 0 to |ios|
        invariant |ios| == |old(ios)|
        invariant CloseFrom(Model(), i, c) == CloseFrom(old(Model()), 0, c)
      {
        FinishCall(i, 0, true, c);
      }
    }
  }
}
