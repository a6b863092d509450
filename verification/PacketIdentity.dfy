/** Packet identity: a packet is its skb address and a generation number, drawn from a counter that
    all processors share. The counter is raised by an atomic add and read again afterwards, the table
    of instances may lose any entry at any time, and processors interleave at every step. */
module PacketIdentity {
  import opened Bits
  import opened Submission

  // ----- The machine

  datatype Instance = Instance(head: nat, generation: nat, released: bool, io: Io)

  /** perfetto_packet_generation as it was called: `last` says that skb_consume_udp holds the last
      reference. */
  datatype Call = Call(key: nat, head: nat, release: bool, last: bool)

  /** What a processor that needs a fresh instance does next. `begun` is the length of the log when
      the call began. */
  datatype Phase =
    | Adding(call: Call, begun: nat)
    | Reading(call: Call, begun: nat)
    | Storing(call: Call, begun: nat, generation: nat)
    | Finishing(call: Call, begun: nat, generation: nat)

  /** The history of a run. */
  datatype Note =
    | Added(key: nat)
    | Assigned(key: nat, generation: nat)
    | Stored(key: nat, head: nat, generation: nat)
    | Failed(key: nat)
    | Returned(key: nat, head: nat, release: bool, generation: nat, begun: nat)
    | Ended(key: nat)
    | Recorded(key: nat, submission: Submission)

  datatype State = State(counter: nat, packets: map<nat, Instance>, cpus: map<nat, Phase>, log: seq<Note>)

  datatype Op =
    | Begin(cpu: nat, call: Call)
    | Advance(cpu: nat, stored: bool)
    | Retire(key: nat)
    | Evict(key: nat)
    | Submit(key: nat, submission: Submission)

  const START := State(0, map[], map[], [])

  predicate NeedsFresh(packets: map<nat, Instance>, call: Call) {
    call.key !in packets || packets[call.key].head != call.head || (packets[call.key].released && !call.release)
  }

  function Fresh(call: Call, generation: nat): Instance {
    Instance(call.head, generation, false, Io(false, NOTHING))
  }

  function Release(packets: map<nat, Instance>, key: nat): map<nat, Instance> {
    if key in packets then packets[key := packets[key].(released := true)] else packets
  }

  /** The end of a call: the last lookup, the release and the result, which is zero if there is no
      instance. */
  function Finish(s: State, call: Call, begun: nat): State {
    var found := if call.key in s.packets then s.packets[call.key].generation else 0;
    var note := [Returned(call.key, call.head, call.release, found, begun)];
    if call.key in s.packets && (call.release || call.last)
    then s.(packets := Release(s.packets, call.key), log := s.log + note + [Ended(call.key)])
    else s.(log := s.log + note)
  }

  function AdvancePhase(s: State, cpu: nat, p: Phase, stored: bool): State {
    match p
    case Adding(call, begun) =>
      s.(counter := (s.counter + 1) % U32, cpus := s.cpus[cpu := Reading(call, begun)],
         log := s.log + [Added(call.key)])
    case Reading(call, begun) =>
      s.(cpus := s.cpus[cpu := Storing(call, begun, s.counter)], log := s.log + [Assigned(call.key, s.counter)])
    case Storing(call, begun, g) =>
      if stored
      then s.(packets := s.packets[call.key := Fresh(call, g)], cpus := s.cpus[cpu := Finishing(call, begun, g)],
              log := s.log + [Stored(call.key, call.head, g)])
      else s.(cpus := s.cpus[cpu := Finishing(call, begun, g)], log := s.log + [Failed(call.key)])
    case Finishing(call, begun, _) => Finish(s.(cpus := s.cpus - {cpu}), call, begun)
  }

  function Step(s: State, op: Op): State {
    match op
    case Begin(cpu, call) =>
      if cpu in s.cpus then s
      else if NeedsFresh(s.packets, call) then s.(cpus := s.cpus[cpu := Adding(call, |s.log|)])
      else Finish(s, call, |s.log|)
    case Advance(cpu, stored) => if cpu in s.cpus then AdvancePhase(s, cpu, s.cpus[cpu], stored) else s
    case Retire(key) => s.(packets := Release(s.packets, key), log := s.log + [Ended(key)])
    case Evict(key) => s.(packets := s.packets - {key})
    case Submit(key, sub) =>
      if key in s.packets
      then s.(packets := s.packets[key := s.packets[key].(io := Remember(s.packets[key].io, sub))],
              log := s.log + [Recorded(key, sub)])
      else s
  }

  function Run(ops: seq<Op>): State {
    if ops == [] then START else Step(Run(ops[..|ops| - 1]), ops[|ops| - 1])
  }

  // ----- A generation counts the adds before it was read

  function Adds(log: seq<Note>): nat {
    if log == [] then 0 else Adds(log[..|log| - 1]) + if log[|log| - 1].Added? then 1 else 0
  }

  lemma {:induction false} AddsAppend(log: seq<Note>, more: seq<Note>)
    ensures Adds(log + more) == Adds(log) + Adds(more)
    decreases |more|
  {
    if more == [] {
      assert log + more == log;
    } else {
      var front := more[..|more| - 1];
      assert (log + more)[..|log + more| - 1] == log + front;
      AddsAppend(log, front);
    }
  }

  ghost predicate Counts(log: seq<Note>) {
    forall a :: 0 <= a < |log| && log[a].Assigned? ==> log[a].generation == Adds(log[..a]) % U32
  }

  lemma {:induction false} CountsOne(log: seq<Note>, note: Note)
    requires Counts(log) && (note.Assigned? ==> note.generation == Adds(log) % U32)
    ensures Counts(log + [note]) && Adds(log + [note]) == Adds(log) + if note.Added? then 1 else 0
  {
    var more := log + [note];
    assert more[..|more| - 1] == log;
    forall a | 0 <= a < |more| && more[a].Assigned? ensures more[a].generation == Adds(more[..a]) % U32 {
      assert more[..a] == log[..a];
      if a == |log| { assert log[..a] == log; }
    }
  }

  lemma {:induction false} ModAdd(x: nat, y: nat)
    ensures (x % U32 + y) % U32 == (x + y) % U32
  {
    assert x + y == U32 * (x / U32) + (x % U32 + y);
    ModTurns(x % U32 + y, x / U32);
  }

  lemma {:induction false} ModTurns(r: nat, q: nat)
    ensures (U32 * q + r) % U32 == r % U32
  {
    if q > 0 {
      ModTurns(r, q - 1);
      assert U32 * q == U32 * (q - 1) + U32;
    }
  }

  ghost predicate Counted(s: State) {
    Counts(s.log) && s.counter == Adds(s.log) % U32
  }

  lemma {:induction false} FinishCounts(s: State, call: Call, begun: nat)
    requires Counted(s)
    ensures Counted(Finish(s, call, begun))
  {
    var found := if call.key in s.packets then s.packets[call.key].generation else 0;
    var note := Returned(call.key, call.head, call.release, found, begun);
    CountsOne(s.log, note);
    CountsOne(s.log + [note], Ended(call.key));
  }

  lemma {:induction false} PhaseCounts(s: State, cpu: nat, p: Phase, stored: bool)
    requires Counted(s)
    ensures Counted(AdvancePhase(s, cpu, p, stored))
  {
    match p
    case Adding(call, _) => CountsOne(s.log, Added(call.key)); ModAdd(Adds(s.log), 1);
    case Reading(call, _) => CountsOne(s.log, Assigned(call.key, s.counter));
    case Storing(call, _, g) => CountsOne(s.log, Stored(call.key, call.head, g)); CountsOne(s.log, Failed(call.key));
    case Finishing(call, begun, _) => FinishCounts(s.(cpus := s.cpus - {cpu}), call, begun);
  }

  lemma {:induction false} StepCounts(s: State, op: Op)
    requires Counted(s)
    ensures Counted(Step(s, op))
  {
    match op
    case Begin(_, call) => FinishCounts(s, call, |s.log|);
    case Advance(cpu, stored) => if cpu in s.cpus { PhaseCounts(s, cpu, s.cpus[cpu], stored); }
    case Retire(key) => CountsOne(s.log, Ended(key));
    case Evict(_) =>
    case Submit(key, sub) => CountsOne(s.log, Recorded(key, sub));
  }

  /** In every run, whatever the processors do between an add and the read that follows it, the
      generation assigned is the number of adds before that read. */
  lemma {:induction false} GenerationCountsAdds(ops: seq<Op>)
    ensures Counted(Run(ops))
  {
    if ops != [] {
      GenerationCountsAdds(ops[..|ops| - 1]);
      StepCounts(Run(ops[..|ops| - 1]), ops[|ops| - 1]);
    }
  }

  lemma {:induction false} AddsBetween(log: seq<Note>, a: nat, b: nat)
    requires a <= b <= |log|
    ensures Adds(log[..b]) == Adds(log[..a]) + Adds(log[a..b]) && Adds(log[..b]) <= Adds(log)
  {
    AddsAppend(log[..a], log[a..b]);
    assert log[..a] + log[a..b] == log[..b];
    AddsAppend(log[..b], log[b..]);
    assert log[..b] + log[b..] == log;
  }

  lemma {:induction false} ModSmall(x: nat)
    requires x < U32
    ensures x % U32 == x
  {
  }

  lemma {:induction false} CountsDiffer(log: seq<Note>, a: nat, b: nat)
    requires Counts(log) && a < b < |log| && log[a].Assigned? && log[b].Assigned?
    ensures log[b].generation == (log[a].generation + Adds(log[a..b])) % U32
    ensures Adds(log) < U32 ==> log[b].generation == log[a].generation + Adds(log[a..b])
  {
    AddsBetween(log, a, b);
    var x, y := Adds(log[..a]), Adds(log[a..b]);
    assert log[a].generation == x % U32 && log[b].generation == (x + y) % U32;
    ModAdd(x, y);
    if Adds(log) < U32 {
      ModSmall(x);
      ModSmall(x + y);
    }
  }

  /** Two assigned generations differ exactly by the adds between their reads; so, barring a full turn
      of the counter, the later one is larger if and only if some processor added in between. */
  lemma {:induction false} LaterIsLargerExactly(ops: seq<Op>, a: nat, b: nat)
    requires var log := Run(ops).log; a < b < |log| && log[a].Assigned? && log[b].Assigned?
    ensures var log := Run(ops).log;
            log[b].generation == (log[a].generation + Adds(log[a..b])) % U32
    ensures var log := Run(ops).log;
            Adds(log) < U32 ==>
              log[a].generation <= log[b].generation &&
              (log[a].generation < log[b].generation <==> Adds(log[a..b]) > 0)
  {
    GenerationCountsAdds(ops);
    CountsDiffer(Run(ops).log, a, b);
  }
}
