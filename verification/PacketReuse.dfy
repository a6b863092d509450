/** When a call reuses the instance of its address and when it draws a new number, and what ends an
    instance. */
module PacketReuse {
  import opened Bits
  import opened Submission
  import opened PacketIdentity
  import opened PacketLifetimes

  /** The table holds the instance stored last for the address, with the head of the call and, unless the
      call is a release, not ended since. */
  ghost predicate Usable(s: State, call: Call) {
    call.key in s.packets &&
    var a := LastStore(s.log, call.key);
    0 <= a && s.log[a].head == call.head && (call.release || Unended(s.log, call.key, a, |s.log|))
  }

  /** In every run whose calls for the address do not overlap, a call returns the generation of the
      instance stored last, at once and without touching the counter, if and only if that instance is in
      the table, has its head and has not ended (unless the call is a release); otherwise it goes on to
      draw a number. */
  lemma {:induction false} BeginExactly(ops: seq<Op>, cpu: nat, call: Call)
    requires Serial(ops, call.key) && NoWrap(Run(ops).log) && cpu !in Run(ops).cpus
    ensures var s, t := Run(ops), Step(Run(ops), Begin(cpu, call));
            if Usable(s, call)
            then t.cpus == s.cpus && t.counter == s.counter && |s.log| < |t.log| &&
                 t.log[|s.log|] == Returned(call.key, call.head, call.release,
                                            s.log[LastStore(s.log, call.key)].generation, |s.log|)
            else t == s.(cpus := s.cpus[cpu := Adding(call, |s.log|)])
  {
    ResultsAreTheLatest(ops, call.key);
  }

  /** A call that finds an instance at its end releases it exactly when it is a release or the last
      consumer, and notes the end then; the instance is otherwise left as it is. */
  lemma {:induction false} FinishReleasesExactly(s: State, call: Call, begun: nat)
    requires call.key in s.packets
    ensures var t, e := Finish(s, call, begun), s.packets[call.key];
            var ends := call.release || call.last;
            t.packets == s.packets[call.key := e.(released := e.released || ends)] &&
            t.log == s.log + [Returned(call.key, call.head, call.release, e.generation, begun)] +
                     (if ends then [Ended(call.key)] else [])
  {
    assert s.packets[call.key := s.packets[call.key]] == s.packets;
    var note := [Returned(call.key, call.head, call.release, s.packets[call.key].generation, begun)];
    assert s.log + note + [] == s.log + note;
  }

  /** Retiring an address ends it and releases its instance, if there is one, and nothing else. */
  lemma {:induction false} RetireExactly(s: State, key: nat)
    ensures var t := Step(s, Retire(key));
            t.log == s.log + [Ended(key)] && t.packets.Keys == s.packets.Keys && t.cpus == s.cpus &&
            t.counter == s.counter &&
            forall k :: k in s.packets ==>
              t.packets[k] == if k == key then s.packets[k].(released := true) else s.packets[k]
  {
  }

  /** Two results for one address name one generation if the address neither ended nor was stored or
      evicted in between: the second call, in a state where the instance of the first is usable, returns
      the generation of the first. */
  lemma {:induction false} SameLifetimeSameGeneration(ops: seq<Op>, cpu: nat, call: Call, a: nat)
    requires Serial(ops, call.key) && NoWrap(Run(ops).log) && cpu !in Run(ops).cpus && Usable(Run(ops), call)
    requires a < |Run(ops).log| && Returns(Run(ops).log[a], call.key) && Run(ops).log[a].generation != 0
    requires LastStore(Run(ops).log, call.key) < a
    ensures var s, t := Run(ops), Step(Run(ops), Begin(cpu, call));
            |s.log| < |t.log| && t.log[|s.log|].Returned? && t.log[|s.log|].generation == s.log[a].generation
  {
    BeginExactly(ops, cpu, call);
    ResultsAreTheLatest(ops, call.key);
    var log := Run(ops).log;
    assert LatestAt(log, call.key, a);
    LastStoreFront(log, call.key, a);
  }

  lemma {:induction false} LastStoreFront(log: seq<Note>, key: nat, a: nat)
    requires a <= |log| && LastStore(log, key) < a
    ensures LastStore(log[..a], key) == LastStore(log, key)
  {
    var r, q := LastStore(log, key), LastStore(log[..a], key);
    assert r >= 0 ==> IsStore(log[..a][r], key);
    assert q >= 0 ==> IsStore(log[q], key);
  }
}
