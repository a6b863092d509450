/** The packet programs: what they remember of submissions over a whole run, a call that nobody
    interrupts, and the programs as they update the shared counter and the table. */
module PacketPrograms {
  import opened Wrappers
  import opened Bits
  import opened Submission
  import opened PacketIdentity
  import opened PacketLifetimes

  // ----- Submissions over a run

  /** The submissions recorded since the instance of the address was last stored. */
  function RecordedSince(log: seq<Note>, key: nat): seq<Submission> {
    if log == [] then []
    else
      var front, last := log[..|log| - 1], log[|log| - 1];
      if last.Stored? && last.key == key then []
      else if last.Recorded? && last.key == key then RecordedSince(front, key) + [last.submission]
      else RecordedSince(front, key)
  }

  ghost predicate Remembered(s: State, key: nat) {
    key in s.packets ==> s.packets[key].io == RememberAll(RecordedSince(s.log, key))
  }

  lemma {:induction false} RecordedOne(log: seq<Note>, note: Note, key: nat)
    ensures RecordedSince(log + [note], key) ==
            if note.Stored? && note.key == key then []
            else if note.Recorded? && note.key == key then RecordedSince(log, key) + [note.submission]
            else RecordedSince(log, key)
  {
    assert (log + [note])[..|log + [note]| - 1] == log;
  }

  lemma {:induction false} FinishRemembers(s: State, call: Call, begun: nat, key: nat)
    requires Remembered(s, key)
    ensures Remembered(Finish(s, call, begun), key)
  {
    var found := if call.key in s.packets then s.packets[call.key].generation else 0;
    var note := Returned(call.key, call.head, call.release, found, begun);
    RecordedOne(s.log, note, key);
    RecordedOne(s.log + [note], Ended(call.key), key);
  }

  lemma {:induction false} PhaseRemembers(s: State, cpu: nat, p: Phase, stored: bool, key: nat)
    requires Remembered(s, key)
    ensures Remembered(AdvancePhase(s, cpu, p, stored), key)
  {
    match p
    case Adding(call, _) => RecordedOne(s.log, Added(call.key), key);
    case Reading(call, _) => RecordedOne(s.log, Assigned(call.key, s.counter), key);
    case Storing(call, _, g) =>
      RecordedOne(s.log, Stored(call.key, call.head, g), key);
      RecordedOne(s.log, Failed(call.key), key);
    case Finishing(call, begun, _) => FinishRemembers(s.(cpus := s.cpus - {cpu}), call, begun, key);
  }

  lemma {:induction false} SubmitRemembers(s: State, at: nat, sub: Submission, key: nat)
    requires Remembered(s, key)
    ensures Remembered(Step(s, Submit(at, sub)), key)
  {
    RecordedOne(s.log, Recorded(at, sub), key);
    var subs := RecordedSince(s.log, key);
    assert (subs + [sub])[..|subs + [sub]| - 1] == subs;
  }

  /** In every run every instance remembers exactly what the submissions since it was stored say. */
  lemma {:induction false} EveryRunRemembers(ops: seq<Op>, key: nat)
    ensures Remembered(Run(ops), key)
  {
    if ops != [] {
      var s := Run(ops[..|ops| - 1]);
      EveryRunRemembers(ops[..|ops| - 1], key);
      match ops[|ops| - 1]
      case Begin(_, call) => FinishRemembers(s, call, |s.log|, key);
      case Advance(cpu, stored) => if cpu in s.cpus { PhaseRemembers(s, cpu, s.cpus[cpu], stored, key); }
      case Retire(k) => RecordedOne(s.log, Ended(k), key);
      case Evict(_) =>
      case Submit(k, sub) => SubmitRemembers(s, k, sub, key);
    }
  }

  /** In every run an event for a stored packet names a submitting call exactly when all submissions
      recorded on that stored instance agree on it. */
  lemma {:induction false} EventsNameOnlyAgreedCalls(ops: seq<Op>, key: nat, d: Detail)
    requires key in Run(ops).packets
    ensures var subs := RecordedSince(Run(ops).log, key);
            var r := Apply(Run(ops).packets[key].io, d);
            match First(subs)
            case None => r == d
            case Some(f) =>
              if Agreed(subs, f)
              then NamesCall(r, subs[f]) && r.multiple == d.multiple &&
                   r.role == (if NamesCall(d, subs[f]) then d.role else 4)
              else r == Detail(true, 0, 0, 0, 0, 0)
  {
    EveryRunRemembers(ops, key);
    ReportsOnlyWhatAllAgreeOn(RecordedSince(Run(ops).log, key), d);
  }

  // ----- A call that nobody interrupts

  function Drawn(s: State): nat {
    (s.counter + 1) % U32
  }

  /** The state in which a call that needed a fresh instance looks it up. */
  function Drew(s: State, call: Call, stored: bool): State {
    s.(counter := Drawn(s),
       packets := if stored then s.packets[call.key := Fresh(call, Drawn(s))] else s.packets,
       log := s.log + [Added(call.key), Assigned(call.key, Drawn(s)),
                       if stored then Stored(call.key, call.head, Drawn(s)) else Failed(call.key)])
  }

  /** The whole call in one piece. */
  function Whole(s: State, call: Call, stored: bool): State {
    if NeedsFresh(s.packets, call) then Finish(Drew(s, call, stored), call, |s.log|) else Finish(s, call, |s.log|)
  }

  /** What it returns. */
  function Result(s: State, call: Call, stored: bool): nat {
    if NeedsFresh(s.packets, call) && stored then Drawn(s)
    else if call.key in s.packets then s.packets[call.key].generation
    else 0
  }

  /** The steps of a call: one, or five when it needs a fresh instance. */
  function Script(s: State, cpu: nat, call: Call, stored: bool): seq<Op> {
    if NeedsFresh(s.packets, call)
    then [Begin(cpu, call), Advance(cpu, stored), Advance(cpu, stored), Advance(cpu, stored), Advance(cpu, stored)]
    else [Begin(cpu, call)]
  }

  lemma {:induction false} DrawSteps(s: State, cpu: nat, call: Call, stored: bool)
    requires cpu !in s.cpus && NeedsFresh(s.packets, call)
    ensures var t0 := Step(s, Begin(cpu, call));
            var t1 := Step(t0, Advance(cpu, stored));
            var t2 := Step(t1, Advance(cpu, stored));
            Step(t2, Advance(cpu, stored)) ==
            Drew(s, call, stored).(cpus := s.cpus[cpu := Finishing(call, |s.log|, Drawn(s))])
  {
    var t0 := Step(s, Begin(cpu, call));
    var t1 := Step(t0, Advance(cpu, stored));
    var t2 := Step(t1, Advance(cpu, stored));
    assert t1 == s.(counter := Drawn(s), cpus := s.cpus[cpu := Reading(call, |s.log|)],
                    log := s.log + [Added(call.key)]);
    assert t2 == s.(counter := Drawn(s), cpus := s.cpus[cpu := Storing(call, |s.log|, Drawn(s))],
                    log := s.log + [Added(call.key), Assigned(call.key, Drawn(s))]);
  }

  lemma {:induction false} RunOne(ops: seq<Op>, op: Op)
    ensures Run(ops + [op]) == Step(Run(ops), op)
  {
    assert (ops + [op])[..|ops + [op]| - 1] == ops;
  }

  lemma {:induction false} RunTwo(ops: seq<Op>, op: Op)
    ensures Run(ops + [op, op]) == Step(Step(Run(ops), op), op)
  {
    RunOne(ops, op);
    RunOne(ops + [op], op);
    assert ops + [op] + [op] == ops + [op, op];
  }

  lemma {:induction false} RunFour(ops: seq<Op>, op: Op)
    ensures Run(ops + [op, op, op, op]) == Step(Step(Step(Step(Run(ops), op), op), op), op)
  {
    RunTwo(ops, op);
    RunTwo(ops + [op, op], op);
    assert ops + [op, op] + [op, op] == ops + [op, op, op, op];
  }

  /** Nobody interrupting, the steps of a call amount to the call in one piece. */
  lemma {:induction false} ScriptIsWhole(ops: seq<Op>, cpu: nat, call: Call, stored: bool)
    requires cpu !in Run(ops).cpus
    ensures Run(ops + Script(Run(ops), cpu, call, stored)) == Whole(Run(ops), call, stored)
  {
    var s := Run(ops);
    RunOne(ops, Begin(cpu, call));
    if NeedsFresh(s.packets, call) {
      DrawSteps(s, cpu, call, stored);
      RunFour(ops + [Begin(cpu, call)], Advance(cpu, stored));
      var b := Advance(cpu, stored);
      assert ops + [Begin(cpu, call)] + [b, b, b, b] == ops + Script(s, cpu, call, stored);
      assert s.cpus[cpu := Finishing(call, |s.log|, Drawn(s))] - {cpu} == s.cpus;
    }
  }

  lemma {:induction false} TookKeeps(s: State, call: Call)
    requires Followed(s, call.key) && s.counter + 1 < U32
    ensures var d, key := Drew(s, call, true), call.key;
            LogOk(d.log, key, d.counter) && EntryFrom(d.log, key, d.packets[key]) &&
            !StaleFor(d.log, key, d.packets[key], call, |s.log|)
  {
    var d, key, g := Drew(s, call, true), call.key, Drawn(s);
    var drawn := [Added(key), Assigned(key, g)];
    ModSmall(s.counter + 1);
    LogKept(s.log, drawn, key, s.counter);
    BelowKept(s.log, drawn, key, g);
    StoreLog(s.log + drawn, key, g, call.head, g);
    assert d.log == s.log + drawn + [Stored(key, call.head, g)];
  }

  lemma {:induction false} RefusedKeeps(s: State, call: Call)
    requires Followed(s, call.key) && NeedsFresh(s.packets, call) && s.counter + 1 < U32
    ensures var d, key := Drew(s, call, false), call.key;
            LogOk(d.log, key, d.counter) &&
            (key in d.packets ==>
               EntryFrom(d.log, key, d.packets[key]) && StaleFor(d.log, key, d.packets[key], call, |s.log|))
  {
    var key := call.key;
    var more := [Added(key), Assigned(key, Drawn(s)), Failed(key)];
    ModSmall(s.counter + 1);
    LogKept(s.log, more, key, s.counter);
    if key in s.packets {
      EntryKept(s.log, more, key, s.packets[key]);
      StaleKept(s.log, more, key, s.packets[key], call, |s.log|);
    }
  }

  /** The table's answer is ignored, and this is exactly when it matters: after an uninterrupted call
      the results still fit their lifetimes if and only if they did before and it is not the case
      that the call needed a fresh instance, the table refused it and held an old one. */
  lemma {:induction false} FitsUnlessRefusedBesideOld(ops: seq<Op>, call: Call, stored: bool)
    requires Serial(ops, call.key) && NoWrap(Run(ops).log) && Run(ops).counter + 1 < U32
    ensures var s := Run(ops);
            ResultsFit(Whole(s, call, stored).log, call.key) <==>
            ResultsFit(s.log, call.key) &&
            !(NeedsFresh(s.packets, call) && !stored && call.key in s.packets)
  {
    ResultsAreTheLatest(ops, call.key);
    if NeedsFresh(Run(ops).packets, call) {
      FreshFits(Run(ops), call, stored);
    } else {
      FinishFits(Run(ops), call, |Run(ops).log|);
    }
  }

  lemma {:induction false} FreshFits(s: State, call: Call, stored: bool)
    requires Followed(s, call.key) && NeedsFresh(s.packets, call) && s.counter + 1 < U32
    ensures ResultsFit(Finish(Drew(s, call, stored), call, |s.log|).log, call.key) <==>
            ResultsFit(s.log, call.key) && !(!stored && call.key in s.packets)
  {
    if stored { TookKeeps(s, call); } else { RefusedKeeps(s, call); }
    FinishFits(Drew(s, call, stored), call, |s.log|);
    var key := call.key;
    FitsWithout(s.log, [Added(key), Assigned(key, Drawn(s)),
                        if stored then Stored(key, call.head, Drawn(s)) else Failed(key)], key);
  }

  /** If the table refuses, a released packet's generation is returned for the next packet at its
      address: here the same generation stands on both sides of a release. */
  lemma {:induction false} RefusalSharesAGeneration(key: nat, head: nat) returns (ops: seq<Op>)
    ensures Serial(ops, key) && NoWrap(Run(ops).log) && !Pairs(Run(ops).log, key)
  {
    var call := Call(key, head, false, false);
    assert Serial([], key) && Run([]) == START;
    ops := SerialCall([], call, true);
    SerialOne(ops, Retire(key), key);
    RunOne(ops, Retire(key));
    ops := SerialCall(ops + [Retire(key)], call, false);
    SharedLog(key, head);
    AddsAtMost(Run(ops).log);
  }

  /** The history of that run. */
  lemma {:induction false} SharedLog(key: nat, head: nat)
    ensures var call := Call(key, head, false, false);
            var log := Whole(Step(Whole(START, call, true), Retire(key)), call, false).log;
            |log| == 9 && !Pairs(log, key)
  {
    var call := Call(key, head, false, false);
    var s := Step(Whole(START, call, true), Retire(key));
    assert s.packets == map[key := Fresh(call, 1).(released := true)];
    assert s.log == [Added(key), Assigned(key, 1), Stored(key, head, 1), Returned(key, head, false, 1, 0), Ended(key)];
    var log := Whole(s, call, false).log;
    assert log == s.log + [Added(key), Assigned(key, 2), Failed(key), Returned(key, head, false, 1, 5)];
    assert log[4] == Ended(key) && Returns(log[3], key) && Returns(log[8], key);
  }

  lemma {:induction false} AddsAtMost(log: seq<Note>)
    ensures Adds(log) <= |log|
  {
    if log != [] { AddsAtMost(log[..|log| - 1]); }
  }

  lemma {:induction false} SerialOne(ops: seq<Op>, op: Op, key: nat)
    requires Serial(ops, key) && Allowed(Run(ops), op, key)
    ensures Serial(ops + [op], key)
  {
    assert (ops + [op])[..|ops + [op]| - 1] == ops;
  }

  lemma {:induction false} SerialFour(ops: seq<Op>, cpu: nat, stored: bool, key: nat)
    requires Serial(ops, key)
    ensures var b := Advance(cpu, stored); Serial(ops + [b, b, b, b], key)
  {
    var b := Advance(cpu, stored);
    SerialOne(ops, b, key);
    SerialOne(ops + [b], b, key);
    assert ops + [b] + [b] == ops + [b, b];
    SerialOne(ops + [b, b], b, key);
    assert ops + [b, b] + [b] == ops + [b, b, b];
    SerialOne(ops + [b, b, b], b, key);
    assert ops + [b, b, b] + [b] == ops + [b, b, b, b];
  }

  lemma {:induction false} SerialCall(ops: seq<Op>, call: Call, stored: bool) returns (r: seq<Op>)
    requires Serial(ops, call.key) && Run(ops).cpus == map[]
    ensures Serial(r, call.key) && Run(r) == Whole(Run(ops), call, stored) && Run(r).cpus == map[]
  {
    ScriptIsWhole(ops, 0, call, stored);
    r := ops + Script(Run(ops), 0, call, stored);
    SerialOne(ops, Begin(0, call), call.key);
    if NeedsFresh(Run(ops).packets, call) {
      SerialFour(ops + [Begin(0, call)], 0, stored, call.key);
      var b := Advance(0, stored);
      assert r == ops + [Begin(0, call)] + [b, b, b, b];
    }
  }

  /** Calls for one address that overlap may draw the same number: both add before either reads. */
  lemma {:induction false} OverlapDrawsOneNumberTwice(key: nat, head: nat) returns (ops: seq<Op>)
    ensures NoWrap(Run(ops).log) && !Rising(Run(ops).log, key)
  {
    var call := Call(key, head, false, false);
    ops := [Begin(1, call), Begin(2, call)];
    RunOne([], Begin(1, call));
    RunOne([Begin(1, call)], Begin(2, call));
    assert [] + [Begin(1, call)] == [Begin(1, call)] && [Begin(1, call)] + [Begin(2, call)] == ops;
    assert Run(ops) == State(0, map[], map[1 := Adding(call, 0), 2 := Adding(call, 0)], []);
    RunOne(ops, Advance(1, true));
    ops := ops + [Advance(1, true)];
    RunOne(ops, Advance(2, true));
    ops := ops + [Advance(2, true)];
    assert Run(ops) == State(2, map[], map[1 := Reading(call, 0), 2 := Reading(call, 0)], [Added(key), Added(key)]);
    RunOne(ops, Advance(1, true));
    ops := ops + [Advance(1, true)];
    RunOne(ops, Advance(2, true));
    ops := ops + [Advance(2, true)];
    var log := Run(ops).log;
    assert log == [Added(key), Added(key), Assigned(key, 2), Assigned(key, 2)];
    assert log[2].generation == log[3].generation;
    AddsAtMost(log);
  }

  // ----- The programs

  class Tables {
    var counter: nat
    var packets: map<nat, Instance>
    ghost var log: seq<Note>

    ghost function Model(): State
      reads this
    {
      State(counter, packets, map[], log)
    }

    constructor ()
      ensures Model() == START
    {
      counter, packets, log := 0, map[], [];
    }

    /** perfetto_packet_generation, uninterrupted; `stored` is the table's answer. */
    method PacketGeneration(call: Call, stored: bool) returns (generation: nat)
      modifies this
      ensures Model() == Whole(old(Model()), call, stored) && generation == Result(old(Model()), call, stored)
    {
      ghost var begun := |log|;
      if call.key !in packets || packets[call.key].head != call.head ||
         (packets[call.key].released && !call.release)
      {
        counter := (counter + 1) % U32;
        var instance := Instance(call.head, counter, false, Io(false, NOTHING));
        log := log + [Added(call.key), Assigned(call.key, counter),
                      if stored then Stored(call.key, call.head, counter) else Failed(call.key)];
        if stored {
          packets := packets[call.key := instance];
        }
      }
      if call.key !in packets {
        log := log + [Returned(call.key, call.head, call.release, 0, begun)];
        return 0;
      }
      generation := packets[call.key].generation;
      log := log + [Returned(call.key, call.head, call.release, generation, begun)];
      if call.release || call.last {
        packets := packets[call.key := packets[call.key].(released := true)];
        log := log + [Ended(call.key)];
      }
    }

    /** perfetto_retire_packet */
    method RetirePacket(key: nat)
      modifies this
      ensures Model() == Step(old(Model()), Retire(key))
    {
      log := log + [Ended(key)];
      if key in packets {
        packets := packets[key := packets[key].(released := true)];
      }
    }

    /** perfetto_packet_remember_submission, on the packet at an address */
    method RememberSubmission(key: nat, sub: Submission)
      requires key in packets
      modifies this
      ensures Model() == Step(old(Model()), Submit(key, sub))
    {
      log := log + [Recorded(key, sub)];
      var io := packets[key].io;
      if io.call.start != 0 &&
         (io.call.start != sub.start || io.call.task != sub.task ||
          io.call.socket != sub.socket || io.call.socketGeneration != sub.socketGeneration)
      {
        packets := packets[key := packets[key].(io := io.(multiple := true))];
        return;
      }
      packets := packets[key := packets[key].(io := io.(call := sub))];
    }

    /** perfetto_packet_apply_submission */
    method ApplySubmission(key: nat, detail: Detail) returns (d: Detail)
      requires key in packets
      ensures d == Apply(packets[key].io, detail)
    {
      var io := packets[key].io;
      if io.multiple {
        return Detail(true, 0, 0, 0, 0, 0);
      }
      d := detail;
      if io.call.start == 0 {
        return;
      }
      if d.start != io.call.start || d.tid != io.call.task % U32 || d.tgid != io.call.task / U32 {
        d := d.(role := 4);
      }
      d := d.(start := io.call.start, syscall := io.call.syscall);
      d := d.(tid := io.call.task % U32, tgid := io.call.task / U32);
    }
  }
}
