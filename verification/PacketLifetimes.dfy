/** Lifetimes of a packet: for an address whose calls do not overlap, the generations drawn for it
    rise, and what was split by a release or by a new head never shares one. */
module PacketLifetimes {
  import opened Bits
  import opened Submission
  import opened PacketIdentity

  // ----- Runs in which the calls for one address do not overlap

  /** A processor is in the middle of a call for the address. */
  predicate At(s: State, cpu: nat, key: nat) {
    cpu in s.cpus && s.cpus[cpu].call.key == key
  }

  /** A call for the address begins only while no other is under way. */
  ghost predicate Allowed(s: State, op: Op, key: nat) {
    op.Begin? && op.call.key == key ==> forall cpu :: !At(s, cpu, key)
  }

  ghost predicate Serial(ops: seq<Op>, key: nat) {
    ops == [] || (Serial(ops[..|ops| - 1], key) && Allowed(Run(ops[..|ops| - 1]), ops[|ops| - 1], key))
  }

  /** The counter has not turned over. */
  ghost predicate NoWrap(log: seq<Note>) {
    Adds(log) < U32
  }

  lemma {:induction false} StepExtends(s: State, op: Op)
    ensures |s.log| <= |Step(s, op).log| && Step(s, op).log[..|s.log|] == s.log
    ensures NoWrap(Step(s, op).log) ==> NoWrap(s.log)
  {
    var log := Step(s, op).log;
    assert log[..|s.log|] == s.log;
    AddsBetween(log, |s.log|, |log|);
    assert log[..|log|] == log;
  }

  ghost predicate Alone(s: State, key: nat) {
    forall c, d :: At(s, c, key) && At(s, d, key) ==> c == d
  }

  lemma {:induction false} StepAlone(s: State, op: Op, key: nat)
    requires Alone(s, key) && Allowed(s, op, key)
    ensures Alone(Step(s, op), key)
    ensures forall c :: At(Step(s, op), c, key) ==> At(s, c, key) || (op.Begin? && op.cpu == c && op.call.key == key)
  {
    forall c | At(Step(s, op), c, key) ensures At(s, c, key) || (op.Begin? && op.cpu == c && op.call.key == key) {
    }
  }

  // ----- Generations drawn for one address rise

  ghost predicate DrawnBelow(log: seq<Note>, key: nat, g: nat) {
    forall a :: 0 <= a < |log| && log[a].Assigned? && log[a].key == key ==> log[a].generation < g
  }

  ghost predicate Rising(log: seq<Note>, key: nat) {
    forall a, b ::
      0 <= a < b < |log| && log[a].Assigned? && log[b].Assigned? && log[a].key == key && log[b].key == key ==>
      log[a].generation < log[b].generation
  }

  /** A processor between its add and its read has a larger number to read than any drawn before. */
  ghost predicate Drawing(s: State, key: nat) {
    Alone(s, key) && Rising(s.log, key) && DrawnBelow(s.log, key, s.counter + 1) &&
    forall cpu :: At(s, cpu, key) && s.cpus[cpu].Reading? ==> DrawnBelow(s.log, key, s.counter)
  }

  /** Notes other than an assignment to the address keep its drawn generations. */
  lemma {:induction false} DrawsKept(log: seq<Note>, more: seq<Note>, key: nat, g: nat)
    requires DrawnBelow(log, key, g) && Rising(log, key)
    requires forall a :: 0 <= a < |more| ==> !(more[a].Assigned? && more[a].key == key)
    ensures DrawnBelow(log + more, key, g) && Rising(log + more, key)
  {
  }

  lemma {:induction false} DrawsOne(log: seq<Note>, key: nat, g: nat)
    requires DrawnBelow(log, key, g) && Rising(log, key)
    ensures DrawnBelow(log + [Assigned(key, g)], key, g + 1) && Rising(log + [Assigned(key, g)], key)
  {
  }

  /** The notes a step adds. */
  ghost function Notes(s: State, op: Op): (r: seq<Note>)
    ensures Step(s, op).log == s.log + r
  {
    StepExtends(s, op);
    Step(s, op).log[|s.log|..]
  }

  predicate Draws(s: State, op: Op, key: nat) {
    op.Advance? && At(s, op.cpu, key) && s.cpus[op.cpu].Reading?
  }

  predicate Raises(s: State, op: Op) {
    op.Advance? && op.cpu in s.cpus && s.cpus[op.cpu].Adding?
  }

  lemma {:induction false} DrawStep(s: State, op: Op, key: nat)
    requires Drawing(s, key) && Draws(s, op, key)
    ensures Drawing(Step(s, op), key)
  {
    StepAlone(s, op, key);
    DrawsOne(s.log, key, s.counter);
    assert Step(s, op).log == s.log + [Assigned(key, s.counter)];
    forall cpu | At(Step(s, op), cpu, key) ensures !Step(s, op).cpus[cpu].Reading? {
      assert At(s, cpu, key) && At(s, op.cpu, key);
    }
  }

  lemma {:induction false} RaiseStep(s: State, op: Op, key: nat)
    requires Drawing(s, key) && Raises(s, op) && Counted(s) && NoWrap(Step(s, op).log)
    ensures Drawing(Step(s, op), key)
  {
    StepAlone(s, op, key);
    AddingCounts(s, op);
    DrawsKept(s.log, [Added(s.cpus[op.cpu].call.key)], key, s.counter + 1);
  }

  lemma {:induction false} OtherStep(s: State, op: Op, key: nat)
    requires Drawing(s, key) && !Draws(s, op, key) && !Raises(s, op) && Allowed(s, op, key)
    ensures Drawing(Step(s, op), key)
  {
    StepAlone(s, op, key);
    StepPlain(s, op, key);
    DrawsKept(s.log, Notes(s, op), key, s.counter + 1);
    forall cpu | At(Step(s, op), cpu, key) && Step(s, op).cpus[cpu].Reading?
      ensures DrawnBelow(Step(s, op).log, key, s.counter)
    {
      assert At(s, cpu, key) && s.cpus[cpu].Reading?;
      DrawsKept(s.log, Notes(s, op), key, s.counter);
    }
  }

  lemma {:induction false} StepPlain(s: State, op: Op, key: nat)
    requires !Draws(s, op, key)
    ensures forall a :: 0 <= a < |Notes(s, op)| ==> !(Notes(s, op)[a].Assigned? && Notes(s, op)[a].key == key)
  {
    var log := Step(s, op).log;
    assert forall a :: |s.log| <= a < |log| ==> !(log[a].Assigned? && log[a].key == key);
  }

  lemma {:induction false} AddingCounts(s: State, op: Op)
    requires op.Advance? && op.cpu in s.cpus && s.cpus[op.cpu].Adding? && NoWrap(Step(s, op).log)
    requires Counted(s)
    ensures Step(s, op).counter == s.counter + 1
  {
    StepExtends(s, op);
    CountsOne(s.log, Added(s.cpus[op.cpu].call.key));
    ModSmall(Adds(s.log));
    ModSmall(Adds(s.log) + 1);
  }

  /** In every run whose calls for the address do not overlap, and barring wrap, every generation newly
      assigned to it is larger than all before, whatever other processors add between its add and its
      read and whatever the table evicts or refuses. */
  lemma {:induction false} NewGenerationsRise(ops: seq<Op>, key: nat)
    requires Serial(ops, key) && NoWrap(Run(ops).log)
    ensures Drawing(Run(ops), key) && Rising(Run(ops).log, key)
  {
    if ops != [] {
      var front, op := ops[..|ops| - 1], ops[|ops| - 1];
      StepExtends(Run(front), op);
      NewGenerationsRise(front, key);
      GenerationCountsAdds(front);
      if Draws(Run(front), op, key) {
        DrawStep(Run(front), op, key);
      } else if Raises(Run(front), op) {
        RaiseStep(Run(front), op, key);
      } else {
        OtherStep(Run(front), op, key);
      }
    }
  }

  // ----- Stores, results and ends of one address

  predicate IsStore(note: Note, key: nat) {
    note.Stored? && note.key == key
  }

  predicate Returns(note: Note, key: nat) {
    note.Returned? && note.key == key
  }

  /** The place of the last store of the address, or -1. */
  ghost function LastStore(log: seq<Note>, key: nat): (r: int)
    ensures -1 <= r < |log| && (r >= 0 ==> IsStore(log[r], key))
    ensures forall m :: r < m < |log| ==> !IsStore(log[m], key)
  {
    if log == [] then -1
    else if IsStore(log[|log| - 1], key) then |log| - 1
    else LastStore(log[..|log| - 1], key)
  }

  lemma {:induction false} LastStoreKept(log: seq<Note>, more: seq<Note>, key: nat)
    requires forall m :: 0 <= m < |more| ==> !IsStore(more[m], key)
    ensures LastStore(log + more, key) == LastStore(log, key)
  {
    var r, n := LastStore(log, key), LastStore(log + more, key);
    assert forall m :: r < m < |log + more| ==> !IsStore((log + more)[m], key);
    assert r >= 0 ==> IsStore((log + more)[r], key);
  }

  /** The address did not end from `a` on before `b`. */
  ghost predicate Unended(log: seq<Note>, key: nat, a: int, b: nat) {
    forall m :: 0 <= m < |log| && a <= m < b ==> log[m] != Ended(key)
  }

  lemma {:induction false} UnendedKept(log: seq<Note>, more: seq<Note>, key: nat, a: int, b: nat)
    requires b <= |log|
    ensures Unended(log + more, key, a, b) == Unended(log, key, a, b)
  {
    assert forall m :: 0 <= m < |log| ==> (log + more)[m] == log[m];
  }

  /** The instance in the table is the one stored last, released if and only if the address ended since. */
  ghost predicate EntryFrom(log: seq<Note>, key: nat, e: Instance) {
    var a := LastStore(log, key);
    0 <= a && log[a] == Stored(key, e.head, e.generation) && (e.released <==> !Unended(log, key, a, |log|))
  }

  /** When the call began the instance was not one it could use. */
  ghost predicate StaleFor(log: seq<Note>, key: nat, e: Instance, call: Call, begun: nat) {
    e.head != call.head || (!call.release && !Unended(log, key, LastStore(log, key), begun))
  }

  ghost predicate StoredBelow(log: seq<Note>, key: nat, g: nat) {
    forall a :: 0 <= a < |log| && IsStore(log[a], key) ==> 0 < log[a].generation < g
  }

  ghost predicate StoresRise(log: seq<Note>, key: nat) {
    forall a, b :: 0 <= a < b < |log| && IsStore(log[a], key) && IsStore(log[b], key) ==>
      log[a].generation < log[b].generation
  }

  /** A result is zero or the generation stored last before it. */
  ghost predicate LatestAt(log: seq<Note>, key: nat, b: nat)
    requires b < |log| && Returns(log[b], key)
  {
    log[b].begun <= b &&
    (log[b].generation != 0 ==>
       var a := LastStore(log[..b], key);
       0 <= a && log[a].generation == log[b].generation)
  }

  ghost predicate ResultsLatest(log: seq<Note>, key: nat) {
    forall b :: 0 <= b < |log| && Returns(log[b], key) ==> LatestAt(log, key, b)
  }

  // ----- What every such run keeps, whatever the table refuses

  ghost predicate Unusable(s: State, key: nat, p: Phase) {
    key in s.packets ==> StaleFor(s.log, key, s.packets[key], p.call, p.begun)
  }

  ghost predicate PhaseOk(s: State, key: nat, p: Phase) {
    p.begun <= |s.log| &&
    match p
    case Adding(_, _) => Unusable(s, key, p)
    case Reading(_, _) => 0 < s.counter && StoredBelow(s.log, key, s.counter) && Unusable(s, key, p)
    case Storing(_, _, g) => 0 < g <= s.counter && StoredBelow(s.log, key, g) && Unusable(s, key, p)
    case Finishing(call, begun, g) =>
      key in s.packets ==>
        if s.packets[key].generation == g
        then s.packets[key].head == call.head && begun <= LastStore(s.log, key)
        else Unusable(s, key, p)
  }

  ghost predicate LogOk(log: seq<Note>, key: nat, counter: nat) {
    StoredBelow(log, key, counter + 1) && StoresRise(log, key) && ResultsLatest(log, key)
  }

  ghost predicate Followed(s: State, key: nat) {
    Alone(s, key) && LogOk(s.log, key, s.counter) &&
    (key in s.packets ==> EntryFrom(s.log, key, s.packets[key])) &&
    forall cpu :: At(s, cpu, key) ==> PhaseOk(s, key, s.cpus[cpu])
  }

  // ----- What new notes do to the history of the address

  ghost predicate NoResult(more: seq<Note>, key: nat) {
    forall a :: 0 <= a < |more| ==> !IsStore(more[a], key) && !Returns(more[a], key)
  }

  ghost predicate Irrelevant(more: seq<Note>, key: nat) {
    NoResult(more, key) && forall a :: 0 <= a < |more| ==> more[a] != Ended(key)
  }

  lemma {:induction false} BelowKept(log: seq<Note>, more: seq<Note>, key: nat, g: nat)
    requires StoredBelow(log, key, g) && forall a :: 0 <= a < |more| ==> !IsStore(more[a], key)
    ensures StoredBelow(log + more, key, g)
  {
  }

  lemma {:induction false} ResultsKept(log: seq<Note>, more: seq<Note>, key: nat)
    requires ResultsLatest(log, key) && forall a :: 0 <= a < |more| ==> !Returns(more[a], key)
    ensures ResultsLatest(log + more, key)
  {
    forall b | 0 <= b < |log + more| && Returns((log + more)[b], key) ensures LatestAt(log + more, key, b) {
      assert b < |log| && LatestAt(log, key, b);
      assert (log + more)[..b] == log[..b];
    }
  }

  lemma {:induction false} RiseKept(log: seq<Note>, more: seq<Note>, key: nat)
    requires StoresRise(log, key) && forall a :: 0 <= a < |more| ==> !IsStore(more[a], key)
    ensures StoresRise(log + more, key)
  {
  }

  lemma {:induction false} LogKept(log: seq<Note>, more: seq<Note>, key: nat, counter: nat)
    requires LogOk(log, key, counter) && NoResult(more, key)
    ensures LogOk(log + more, key, counter)
  {
    BelowKept(log, more, key, counter + 1);
    RiseKept(log, more, key);
    ResultsKept(log, more, key);
  }

  lemma {:induction false} EntryKept(log: seq<Note>, more: seq<Note>, key: nat, e: Instance)
    requires EntryFrom(log, key, e) && Irrelevant(more, key)
    ensures EntryFrom(log + more, key, e)
  {
    var a := LastStore(log, key);
    LastStoreKept(log, more, key);
    assert Unended(log + more, key, a, |log + more|) == Unended(log, key, a, |log|) by {
      assert forall m :: 0 <= m < |log| ==> (log + more)[m] == log[m];
      assert forall m :: |log| <= m < |log + more| ==> (log + more)[m] == more[m - |log|];
    }
  }

  lemma {:induction false} StaleKept(log: seq<Note>, more: seq<Note>, key: nat, e: Instance, call: Call, begun: nat)
    requires StaleFor(log, key, e, call, begun) && begun <= |log| && NoResult(more, key)
    ensures StaleFor(log + more, key, e, call, begun)
  {
    LastStoreKept(log, more, key);
    UnendedKept(log, more, key, LastStore(log, key), begun);
  }

  lemma {:induction false} EndedEntry(log: seq<Note>, key: nat, e: Instance)
    requires EntryFrom(log, key, e)
    ensures EntryFrom(log + [Ended(key)], key, e.(released := true))
  {
    LastStoreKept(log, [Ended(key)], key);
    assert (log + [Ended(key)])[|log|] == Ended(key);
  }

  lemma {:induction false} ResultEntry(log: seq<Note>, key: nat, e: Instance, note: Note)
    requires EntryFrom(log, key, e) && Returns(note, key)
    ensures EntryFrom(log + [note], key, e)
  {
    var a := LastStore(log, key);
    LastStoreKept(log, [note], key);
    assert Unended(log + [note], key, a, |log| + 1) == Unended(log, key, a, |log|) by {
      assert forall m :: 0 <= m < |log| ==> (log + [note])[m] == log[m];
    }
  }

  lemma {:induction false} ResultLog(log: seq<Note>, key: nat, counter: nat, note: Note)
    requires LogOk(log, key, counter) && Returns(note, key) && note.begun <= |log|
    requires note.generation != 0 ==>
               var a := LastStore(log, key); 0 <= a && log[a].generation == note.generation
    ensures LogOk(log + [note], key, counter)
  {
    BelowKept(log, [note], key, counter + 1);
    RiseKept(log, [note], key);
    var more := log + [note];
    forall b | 0 <= b < |more| && Returns(more[b], key) ensures LatestAt(more, key, b) {
      assert more[..b] == log[..b];
      if b < |log| {
        assert LatestAt(log, key, b);
      } else {
        assert more[..b] == log;
      }
    }
  }

  // ----- Every step keeps it

  lemma {:induction false} FinishFollows(s: State, call: Call, begun: nat)
    requires LogOk(s.log, call.key, s.counter) && begun <= |s.log|
    requires call.key in s.packets ==> EntryFrom(s.log, call.key, s.packets[call.key])
    ensures var t := Finish(s, call, begun);
            LogOk(t.log, call.key, t.counter) &&
            (call.key in t.packets ==> EntryFrom(t.log, call.key, t.packets[call.key]))
  {
    var key := call.key;
    if key in s.packets {
      var e := s.packets[key];
      var note := Returned(key, call.head, call.release, e.generation, begun);
      ResultLog(s.log, key, s.counter, note);
      ResultEntry(s.log, key, e, note);
      LogKept(s.log + [note], [Ended(key)], key, s.counter);
      EndedEntry(s.log + [note], key, e);
    } else {
      ResultLog(s.log, key, s.counter, Returned(key, call.head, call.release, 0, begun));
    }
  }

  /** How a call for the address may stand after a step that says nothing of the address. */
  ghost predicate Moves(s: State, t: State, cpu: nat, key: nat)
    requires At(t, cpu, key)
  {
    (t.cpus[cpu].Adding? && t.cpus[cpu].begun <= |s.log| && Unusable(s, key, t.cpus[cpu])) ||
    (At(s, cpu, key) &&
     match t.cpus[cpu]
     case Reading(call, begun) =>
       s.cpus[cpu] == t.cpus[cpu] || (s.cpus[cpu] == Adding(call, begun) && s.counter < t.counter)
     case Storing(call, begun, g) =>
       s.cpus[cpu] == t.cpus[cpu] || (s.cpus[cpu] == Reading(call, begun) && g == s.counter)
     case Finishing(call, begun, g) =>
       s.cpus[cpu] == t.cpus[cpu] || s.cpus[cpu] == Storing(call, begun, g)
     case _ => s.cpus[cpu] == t.cpus[cpu])
  }

  ghost predicate SameEntry(s: State, t: State, key: nat) {
    key in t.packets ==> key in s.packets && t.packets[key].(io := s.packets[key].io) == s.packets[key]
  }

  lemma {:induction false} UnusableKept(s: State, t: State, more: seq<Note>, key: nat, p: Phase, q: Phase)
    requires t.log == s.log + more && NoResult(more, key) && p.begun <= |s.log|
    requires q.call == p.call && q.begun == p.begun && Unusable(s, key, p)
    requires key in t.packets ==> key in s.packets && t.packets[key].head == s.packets[key].head
    ensures Unusable(t, key, q)
  {
    if key in t.packets { StaleKept(s.log, more, key, s.packets[key], p.call, p.begun); }
  }

  lemma {:induction false} MoveFollows(s: State, t: State, more: seq<Note>, cpu: nat, key: nat)
    requires Followed(s, key) && t.log == s.log + more && Irrelevant(more, key) && s.counter <= t.counter
    requires SameEntry(s, t, key) && At(t, cpu, key) && Moves(s, t, cpu, key)
    ensures PhaseOk(t, key, t.cpus[cpu])
  {
    var q := t.cpus[cpu];
    LastStoreKept(s.log, more, key);
    BelowKept(s.log, more, key, s.counter + 1);
    if At(s, cpu, key) {
      var p := s.cpus[cpu];
      assert PhaseOk(s, key, p);
      if p.Reading? { BelowKept(s.log, more, key, s.counter); }
      if p.Storing? { BelowKept(s.log, more, key, p.generation); }
      if Unusable(s, key, p) && q.call == p.call && q.begun == p.begun { UnusableKept(s, t, more, key, p, q); }
    }
    if q.Adding? && q.begun <= |s.log| && Unusable(s, key, q) { UnusableKept(s, t, more, key, q, q); }
  }

  /** A step that says nothing of the address, and leaves its instance or evicts it. */
  lemma {:induction false} QuietFollows(s: State, t: State, more: seq<Note>, key: nat)
    requires Followed(s, key) && Alone(t, key) && t.log == s.log + more && Irrelevant(more, key)
    requires s.counter <= t.counter && SameEntry(s, t, key)
    requires forall cpu :: At(t, cpu, key) ==> Moves(s, t, cpu, key)
    ensures Followed(t, key)
  {
    LogKept(s.log, more, key, s.counter);
    if key in t.packets { EntryKept(s.log, more, key, s.packets[key]); }
    forall cpu | At(t, cpu, key) ensures PhaseOk(t, key, t.cpus[cpu]) {
      MoveFollows(s, t, more, cpu, key);
    }
  }

  /** The steps that add a result or an end for the address, or store an instance of it. */
  predicate Speaks(s: State, op: Op, key: nat) {
    match op
    case Begin(cpu, call) => call.key == key && cpu !in s.cpus && !NeedsFresh(s.packets, call)
    case Advance(cpu, stored) =>
      At(s, cpu, key) && ((s.cpus[cpu].Storing? && stored) || s.cpus[cpu].Finishing?)
    case Retire(k) => k == key
    case Evict(_) => false
    case Submit(_, _) => false
  }

  lemma {:induction false} QuietNotes(s: State, op: Op, key: nat)
    requires !Speaks(s, op, key)
    ensures Irrelevant(Notes(s, op), key) && SameEntry(s, Step(s, op), key)
  {
    var log := Step(s, op).log;
    assert forall a :: |s.log| <= a < |log| ==>
      !IsStore(log[a], key) && !Returns(log[a], key) && log[a] != Ended(key);
  }

  lemma {:induction false} QuietMoves(s: State, op: Op, key: nat)
    requires !Speaks(s, op, key) && Followed(s, key) && Counted(s) && NoWrap(Step(s, op).log)
    ensures s.counter <= Step(s, op).counter
    ensures forall cpu :: At(Step(s, op), cpu, key) ==> Moves(s, Step(s, op), cpu, key)
  {
    if Raises(s, op) { AddingCounts(s, op); }
    forall cpu | At(Step(s, op), cpu, key) ensures Moves(s, Step(s, op), cpu, key) {
      if op.Begin? {
        BeginMoves(s, op, cpu, key);
      } else {
        OtherMoves(s, op, cpu, key);
      }
    }
  }

  lemma {:induction false} BeginMoves(s: State, op: Op, cpu: nat, key: nat)
    requires op.Begin? && Followed(s, key) && At(Step(s, op), cpu, key)
    ensures Moves(s, Step(s, op), cpu, key)
  {
    if At(s, cpu, key) {
      assert s.cpus[cpu] == Step(s, op).cpus[cpu];
    } else {
      assert Step(s, op).cpus[cpu] == Adding(op.call, |s.log|);
    }
  }

  lemma {:induction false} OtherMoves(s: State, op: Op, cpu: nat, key: nat)
    requires !Speaks(s, op, key) && !op.Begin? && At(Step(s, op), cpu, key) && Followed(s, key)
    requires Raises(s, op) ==> s.counter < Step(s, op).counter
    ensures Moves(s, Step(s, op), cpu, key)
  {
    assert At(s, cpu, key) && PhaseOk(s, key, s.cpus[cpu]);
  }

  lemma {:induction false} RetireFollows(s: State, key: nat)
    requires Followed(s, key)
    ensures Followed(Step(s, Retire(key)), key)
  {
    var t := Step(s, Retire(key));
    var more := [Ended(key)];
    StepAlone(s, Retire(key), key);
    LogKept(s.log, more, key, s.counter);
    LastStoreKept(s.log, more, key);
    if key in s.packets { EndedEntry(s.log, key, s.packets[key]); }
    forall cpu | At(t, cpu, key) ensures PhaseOk(t, key, t.cpus[cpu]) {
      var p := s.cpus[cpu];
      assert At(s, cpu, key) && PhaseOk(s, key, p);
      if p.Reading? { BelowKept(s.log, more, key, s.counter); }
      if p.Storing? { BelowKept(s.log, more, key, p.generation); }
      if Unusable(s, key, p) { UnusableKept(s, t, more, key, p, p); }
    }
  }

  lemma {:induction false} StoreLog(log: seq<Note>, key: nat, counter: nat, head: nat, g: nat)
    requires LogOk(log, key, counter) && 0 < g <= counter && StoredBelow(log, key, g)
    ensures LogOk(log + [Stored(key, head, g)], key, counter)
    ensures LastStore(log + [Stored(key, head, g)], key) == |log|
  {
    ResultsKept(log, [Stored(key, head, g)], key);
    assert IsStore((log + [Stored(key, head, g)])[|log|], key);
  }

  lemma {:induction false} StoreFollows(s: State, cpu: nat, key: nat)
    requires Followed(s, key) && At(s, cpu, key) && s.cpus[cpu].Storing?
    ensures Followed(Step(s, Advance(cpu, true)), key)
  {
    var p, t := s.cpus[cpu], Step(s, Advance(cpu, true));
    StepAlone(s, Advance(cpu, true), key);
    assert PhaseOk(s, key, p);
    StoreLog(s.log, key, s.counter, p.call.head, p.generation);
    assert t.log == s.log + [Stored(key, p.call.head, p.generation)];
    assert Unended(t.log, key, |s.log|, |t.log|);
    forall c | At(t, c, key) ensures PhaseOk(t, key, t.cpus[c]) {
      assert At(s, c, key);
    }
  }

  lemma {:induction false} SpeakingFollows(s: State, op: Op, key: nat)
    requires Followed(s, key) && Allowed(s, op, key) && Speaks(s, op, key)
    ensures Followed(Step(s, op), key)
  {
    var t := Step(s, op);
    StepAlone(s, op, key);
    match op
    case Begin(cpu, call) =>
      FinishFollows(s, call, |s.log|);
      assert forall c :: At(t, c, key) ==> At(s, c, key);
    case Retire(_) =>
      RetireFollows(s, key);
    case Advance(cpu, stored) =>
      var p := s.cpus[cpu];
      assert PhaseOk(s, key, p);
      assert forall c :: At(t, c, key) ==> At(s, c, key) && c == cpu;
      if p.Finishing? {
        FinishFollows(s.(cpus := s.cpus - {cpu}), p.call, p.begun);
      } else {
        StoreFollows(s, cpu, key);
      }
  }

  lemma {:induction false} StepFollows(s: State, op: Op, key: nat)
    requires Followed(s, key) && Allowed(s, op, key) && Counted(s) && NoWrap(Step(s, op).log)
    ensures Followed(Step(s, op), key)
  {
    if Speaks(s, op, key) {
      SpeakingFollows(s, op, key);
    } else {
      StepAlone(s, op, key);
      QuietNotes(s, op, key);
      QuietMoves(s, op, key);
      QuietFollows(s, Step(s, op), Notes(s, op), key);
    }
  }

  /** In every run whose calls for the address do not overlap, and barring wrap, stored generations
      rise, every result is zero or the generation stored last, and the instance in the table is that
      one, whatever the table evicts or refuses. */
  lemma {:induction false} ResultsAreTheLatest(ops: seq<Op>, key: nat)
    requires Serial(ops, key) && NoWrap(Run(ops).log)
    ensures Followed(Run(ops), key)
  {
    if ops != [] {
      var front, op := ops[..|ops| - 1], ops[|ops| - 1];
      StepExtends(Run(front), op);
      ResultsAreTheLatest(front, key);
      GenerationCountsAdds(front);
      StepFollows(Run(front), op, key);
    }
  }

  // ----- When results fit the lifetimes

  /** The result names an instance stored with the head of the call, and the address had not ended
      between that store and the beginning of the call, unless the call is itself a release. */
  ghost predicate FitsAt(log: seq<Note>, key: nat, b: nat)
    requires b < |log| && Returns(log[b], key)
  {
    exists a :: 0 <= a < b && log[a] == Stored(key, log[b].head, log[b].generation) &&
      (log[b].release || Unended(log, key, a, log[b].begun))
  }

  ghost predicate ResultsFit(log: seq<Note>, key: nat) {
    forall b :: 0 <= b < |log| && Returns(log[b], key) && log[b].generation != 0 ==> FitsAt(log, key, b)
  }

  /** A call that drew a number finds another one in the table: its own instance was refused and the
      one it could not use is still there. */
  predicate Fires(s: State, op: Op, key: nat) {
    op.Advance? && At(s, op.cpu, key) && s.cpus[op.cpu].Finishing? &&
    key in s.packets && s.packets[key].generation != s.cpus[op.cpu].generation
  }

  ghost predicate NeverFires(ops: seq<Op>, key: nat) {
    ops == [] ||
    (NeverFires(ops[..|ops| - 1], key) && !Fires(Run(ops[..|ops| - 1]), ops[|ops| - 1], key))
  }

  lemma {:induction false} FitKept(log: seq<Note>, more: seq<Note>, key: nat, b: nat)
    requires b < |log| && Returns(log[b], key) && log[b].begun <= b
    ensures FitsAt(log + more, key, b) == FitsAt(log, key, b)
  {
    forall a | 0 <= a < b
      ensures Unended(log + more, key, a, log[b].begun) == Unended(log, key, a, log[b].begun)
      ensures (log + more)[a] == log[a]
    {
      UnendedKept(log, more, key, a, log[b].begun);
    }
    assert (log + more)[b] == log[b];
  }

  lemma {:induction false} FitsWithout(log: seq<Note>, more: seq<Note>, key: nat)
    requires ResultsLatest(log, key) && forall a :: 0 <= a < |more| ==> !Returns(more[a], key)
    ensures ResultsFit(log + more, key) == ResultsFit(log, key)
  {
    forall b | 0 <= b < |log| && Returns(log[b], key)
      ensures FitsAt(log + more, key, b) == FitsAt(log, key, b) && (log + more)[b] == log[b]
    {
      assert LatestAt(log, key, b);
      FitKept(log, more, key, b);
    }
  }

  lemma {:induction false} FitsWith(log: seq<Note>, key: nat, note: Note)
    requires ResultsLatest(log, key) && Returns(note, key)
    ensures (log + [note])[|log|] == note
    ensures ResultsFit(log + [note], key) <==>
            ResultsFit(log, key) && (note.generation == 0 || FitsAt(log + [note], key, |log|))
  {
    forall b | 0 <= b < |log| && Returns(log[b], key)
      ensures FitsAt(log + [note], key, b) == FitsAt(log, key, b) && (log + [note])[b] == log[b]
    {
      assert LatestAt(log, key, b);
      FitKept(log, [note], key, b);
    }
  }

  /** A result read from an instance fits exactly when the call could use that instance. */
  lemma {:induction false} FitsUnlessStale(log: seq<Note>, key: nat, e: Instance, call: Call, begun: nat)
    requires StoresRise(log, key) && EntryFrom(log, key, e) && begun <= |log| && call.key == key
    ensures var note := Returned(key, call.head, call.release, e.generation, begun);
            (log + [note])[|log|] == note &&
            (FitsAt(log + [note], key, |log|) <==> !StaleFor(log, key, e, call, begun))
  {
    var note := Returned(key, call.head, call.release, e.generation, begun);
    var more := log + [note];
    var last := LastStore(log, key);
    UnendedKept(log, [note], key, last, begun);
    forall a | 0 <= a < |log| && more[a] == Stored(key, call.head, e.generation) ensures a == last {
      assert IsStore(log[a], key) && IsStore(log[last], key);
    }
    assert more[last] == Stored(key, e.head, e.generation);
  }

  lemma {:induction false} FinishFits(s: State, call: Call, begun: nat)
    requires LogOk(s.log, call.key, s.counter) && begun <= |s.log|
    requires call.key in s.packets ==> EntryFrom(s.log, call.key, s.packets[call.key])
    ensures ResultsFit(Finish(s, call, begun).log, call.key) <==>
            ResultsFit(s.log, call.key) &&
            !(call.key in s.packets && StaleFor(s.log, call.key, s.packets[call.key], call, begun))
  {
    var key := call.key;
    var found := if key in s.packets then s.packets[key].generation else 0;
    var note := Returned(key, call.head, call.release, found, begun);
    FitsWith(s.log, key, note);
    if key in s.packets {
      FitsUnlessStale(s.log, key, s.packets[key], call, begun);
      ResultLog(s.log, key, s.counter, note);
      FitsWithout(s.log + [note], [Ended(key)], key);
      assert found != 0;
    }
  }

  lemma {:induction false} StepFits(s: State, op: Op, key: nat)
    requires Followed(s, key)
    ensures ResultsFit(Step(s, op).log, key) <==> ResultsFit(s.log, key) && !Fires(s, op, key)
  {
    if Speaks(s, op, key) && op.Begin? {
      FinishFits(s, op.call, |s.log|);
    } else if Speaks(s, op, key) && op.Advance? && s.cpus[op.cpu].Finishing? {
      var p := s.cpus[op.cpu];
      assert PhaseOk(s, key, p);
      FinishFits(s.(cpus := s.cpus - {op.cpu}), p.call, p.begun);
    } else {
      SilentNotes(s, op, key);
      FitsWithout(s.log, Notes(s, op), key);
    }
  }

  lemma {:induction false} SilentNotes(s: State, op: Op, key: nat)
    requires !(Speaks(s, op, key) && op.Begin?)
    requires !(Speaks(s, op, key) && op.Advance? && s.cpus[op.cpu].Finishing?)
    ensures forall a :: 0 <= a < |Notes(s, op)| ==> !Returns(Notes(s, op)[a], key)
    ensures !Fires(s, op, key)
  {
    var log := Step(s, op).log;
    assert forall a :: |s.log| <= a < |log| ==> !Returns(log[a], key);
  }

  /** In every run whose calls for the address do not overlap, and barring wrap, all results fit their
      lifetimes if and only if no call was left with an instance it could not use. */
  lemma {:induction false} ResultsFitExactly(ops: seq<Op>, key: nat)
    requires Serial(ops, key) && NoWrap(Run(ops).log)
    ensures ResultsFit(Run(ops).log, key) <==> NeverFires(ops, key)
  {
    if ops != [] {
      var front, op := ops[..|ops| - 1], ops[|ops| - 1];
      StepExtends(Run(front), op);
      ResultsFitExactly(front, key);
      ResultsAreTheLatest(front, key);
      StepFits(Run(front), op, key);
    }
  }

  // ----- Lifetimes do not share a generation

  /** Two results for one address: the later generation is not smaller; an equal one means the same
      head and, unless the later call is itself a release, no end between the two. */
  ghost predicate PairOk(log: seq<Note>, key: nat, a: nat, b: nat)
    requires a < b < |log| && Returns(log[a], key) && Returns(log[b], key)
  {
    log[a].generation != 0 && log[b].generation != 0 ==>
      log[a].generation <= log[b].generation &&
      (log[a].generation == log[b].generation ==>
         log[a].head == log[b].head && (log[b].release || Unended(log, key, a, log[b].begun)))
  }

  ghost predicate Pairs(log: seq<Note>, key: nat) {
    forall a, b :: 0 <= a < b < |log| && Returns(log[a], key) && Returns(log[b], key) ==> PairOk(log, key, a, b)
  }

  lemma {:induction false} OneStoreEach(log: seq<Note>, key: nat, a: nat, b: nat)
    requires StoresRise(log, key) && a < |log| && b < |log| && IsStore(log[a], key) && IsStore(log[b], key)
    requires log[a].generation == log[b].generation
    ensures a == b
  {
  }

  /** Results never go back, whether or not they fit. */
  lemma {:induction false} ResultsNeverGoBack(log: seq<Note>, key: nat, a: nat, b: nat)
    requires StoresRise(log, key) && ResultsLatest(log, key)
    requires a < b < |log| && Returns(log[a], key) && Returns(log[b], key)
    ensures log[b].begun <= b
    ensures log[a].generation != 0 && log[b].generation != 0 ==> log[a].generation <= log[b].generation
  {
    assert LatestAt(log, key, a) && LatestAt(log, key, b);
    var p, q := LastStore(log[..a], key), LastStore(log[..b], key);
    assert 0 <= p ==> IsStore(log[..b][p], key);
    assert p <= q;
    assert 0 <= p < q ==> IsStore(log[p], key) && IsStore(log[q], key);
  }

  lemma {:induction false} FitMakesPairs(log: seq<Note>, key: nat)
    requires StoresRise(log, key) && ResultsLatest(log, key) && ResultsFit(log, key)
    ensures Pairs(log, key)
  {
    forall a, b | 0 <= a < b < |log| && Returns(log[a], key) && Returns(log[b], key) ensures PairOk(log, key, a, b) {
      ResultsNeverGoBack(log, key, a, b);
      if log[a].generation == log[b].generation != 0 {
        assert FitsAt(log, key, a) && FitsAt(log, key, b);
        var p :| 0 <= p < a && log[p] == Stored(key, log[a].head, log[a].generation);
        var q :| 0 <= q < b && log[q] == Stored(key, log[b].head, log[b].generation) &&
                 (log[b].release || Unended(log, key, q, log[b].begun));
        OneStoreEach(log, key, p, q);
      }
    }
  }

  /** If in addition no call was left with an instance it could not use: results split by a release or
      by a new head never share a generation, and evictions and harmless refusals change none of it. */
  lemma {:induction false} LifetimesNeverShare(ops: seq<Op>, key: nat)
    requires Serial(ops, key) && NoWrap(Run(ops).log) && NeverFires(ops, key)
    ensures Pairs(Run(ops).log, key)
  {
    ResultsFitExactly(ops, key);
    ResultsAreTheLatest(ops, key);
    FitMakesPairs(Run(ops).log, key);
  }

  /** Two results of such a run for one address, neither of them the failure zero: a different head
      means a larger generation, and so does an end between the first and the beginning of the
      second, unless the second call is a release itself. */
  lemma {:induction false} SplitLifetimesDiffer(ops: seq<Op>, key: nat, a: nat, b: nat)
    requires Serial(ops, key) && NoWrap(Run(ops).log) && NeverFires(ops, key)
    requires var log := Run(ops).log;
             a < b < |log| && Returns(log[a], key) && Returns(log[b], key) &&
             log[a].generation != 0 && log[b].generation != 0
    ensures var log := Run(ops).log;
            log[b].begun <= b &&
            (log[a].head != log[b].head ||
             (!log[b].release && exists m :: a <= m < log[b].begun && log[m] == Ended(key)) ==>
               log[a].generation < log[b].generation)
  {
    LifetimesNeverShare(ops, key);
    ResultsAreTheLatest(ops, key);
    assert LatestAt(Run(ops).log, key, b) && PairOk(Run(ops).log, key, a, b);
  }
}
