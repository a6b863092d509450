/** The trailing-window ring of the native exporter: timestamped packets are kept while they lie
    inside the window and the byte guardrail holds, packets without a timestamp are kept for good.
    The theorem compares what is written at close with the whole history of packets offered. */
module TrailingRing {
  import opened Bits

  datatype Packet = Packet(timestamp: nat, data: seq<byte>)

  /** Window length and byte guardrail; the window is positive, otherwise there is no ring. */
  datatype Config = Config(window: nat, maxBytes: nat)

  datatype State = State(
    packets: seq<Packet>, bytes: nat, latest: nat, truncated: bool, failed: bool, persistent: seq<Packet>)

  /** One call of native_write_packet_at: whether the packet could be wrapped into a trace message, and
      whether it could then be appended to its queue. */
  datatype Offer = Offer(packet: Packet, wrapped: bool, stored: bool)

  function Init(): State {
    State([], 0, 0, false, false, [])
  }

  function Cutoff(cfg: Config, latest: nat): nat {
    if latest > cfg.window then latest - cfg.window else 0
  }

  function Bytes(packets: seq<Packet>): nat {
    if packets == [] then 0 else |packets[0].data| + Bytes(packets[1..])
  }

  predicate MustEvict(cfg: Config, s: State) {
    s.packets != [] && (s.packets[0].timestamp < Cutoff(cfg, s.latest) || s.bytes > cfg.maxBytes)
  }

  function DropHead(cfg: Config, s: State): State
    requires s.packets != [] && s.bytes == Bytes(s.packets)
  {
    s.(packets := s.packets[1..], bytes := s.bytes - |s.packets[0].data|,
       truncated := s.truncated || s.bytes > cfg.maxBytes)
  }

  /** native_ring_evict: only the head is looked at. */
  function EvictLoop(cfg: Config, s: State): State
    requires s.bytes == Bytes(s.packets)
    decreases |s.packets|
  {
    if MustEvict(cfg, s) then EvictLoop(cfg, DropHead(cfg, s)) else s
  }

  /** native_write_packet_at in ring mode. */
  function Write(cfg: Config, s: State, o: Offer): (t: State)
    requires s.bytes == Bytes(s.packets)
    ensures t.bytes == Bytes(t.packets)
  {
    var p := o.packet;
    if s.failed then s
    else if !o.wrapped then s.(failed := true)
    else if p.timestamp != 0 && s.latest > cfg.window && p.timestamp < s.latest - cfg.window then s
    else if !o.stored then s.(failed := true)
    else if p.timestamp == 0 then s.(persistent := s.persistent + [p])
    else
      BytesAppend(s.packets, p);
      var s1 := s.(packets := s.packets + [p], bytes := s.bytes + |p.data|,
                   latest := if p.timestamp > s.latest then p.timestamp else s.latest);
      EvictBytes(cfg, s1);
      EvictLoop(cfg, s1)
  }

  lemma {:induction false} BytesAppend(packets: seq<Packet>, p: Packet)
    ensures Bytes(packets + [p]) == Bytes(packets) + |p.data|
  {
    if packets == [] {
      assert packets + [p] == [p];
    } else {
      BytesAppend(packets[1..], p);
      assert (packets + [p])[1..] == packets[1..] + [p];
    }
  }

  lemma {:induction false} EvictBytes(cfg: Config, s: State)
    requires s.bytes == Bytes(s.packets)
    ensures var t := EvictLoop(cfg, s);
            t.bytes == Bytes(t.packets) && t.bytes <= cfg.maxBytes && t.latest == s.latest &&
            t.failed == s.failed && t.persistent == s.persistent
    decreases |s.packets|
  {
    if MustEvict(cfg, s) {
      EvictBytes(cfg, DropHead(cfg, s));
    }
  }

  function Run(cfg: Config, offers: seq<Offer>): (s: State)
    ensures s.bytes == Bytes(s.packets)
  {
    if offers == [] then Init() else Write(cfg, Run(cfg, offers[..|offers| - 1]), offers[|offers| - 1])
  }

  // ----- History

  /** Packets with a timestamp at or after `cutoff`, in order. */
  function Since(packets: seq<Packet>, cutoff: nat): seq<Packet> {
    if packets == [] then []
    else (if packets[0].timestamp >= cutoff then [packets[0]] else []) + Since(packets[1..], cutoff)
  }

  /** Every timestamped packet ever offered, in order. */
  ghost function Stamped(offers: seq<Offer>): seq<Packet> {
    if offers == [] then []
    else
      var p := offers[|offers| - 1].packet;
      Stamped(offers[..|offers| - 1]) + if p.timestamp != 0 then [p] else []
  }

  ghost function Unstamped(offers: seq<Offer>): seq<Packet> {
    if offers == [] then []
    else
      var p := offers[|offers| - 1].packet;
      Unstamped(offers[..|offers| - 1]) + if p.timestamp == 0 then [p] else []
  }

  ghost function Newest(packets: seq<Packet>): nat {
    if packets == [] then 0
    else
      var rest := Newest(packets[..|packets| - 1]);
      if packets[|packets| - 1].timestamp > rest then packets[|packets| - 1].timestamp else rest
  }

  lemma {:induction false} SinceConcat(a: seq<Packet>, b: seq<Packet>, cutoff: nat)
    ensures Since(a + b, cutoff) == Since(a, cutoff) + Since(b, cutoff)
  {
    if a == [] {
      assert a + b == b;
    } else {
      SinceConcat(a[1..], b, cutoff);
      assert (a + b)[1..] == a[1..] + b && (a + b)[0] == a[0];
      Associative(if a[0].timestamp >= cutoff then [a[0]] else [], Since(a[1..], cutoff), Since(b, cutoff));
    }
  }

  lemma {:induction false} Associative(a: seq<Packet>, b: seq<Packet>, c: seq<Packet>)
    ensures a + (b + c) == a + b + c
  {
  }

  /** A later cutoff does not need what an earlier one already dropped. */
  lemma {:induction false} SinceTwice(a: seq<Packet>, early: nat, late: nat)
    requires early <= late
    ensures Since(Since(a, early), late) == Since(a, late)
  {
    if a != [] {
      SinceTwice(a[1..], early, late);
      if a[0].timestamp >= early {
        SinceConcat([a[0]], Since(a[1..], early), late);
        assert [a[0]][1..] == [];
        assert Since([a[0]], late) == if a[0].timestamp >= late then [a[0]] else [];
      } else {
        assert [] + Since(a[1..], early) == Since(a[1..], early);
        assert [] + Since(a[1..], late) == Since(a[1..], late);
      }
    }
  }

  /** Inside the window, the retained packets are those of the history from `k` on, and from its
      very beginning as long as capacity never forced anything out. */
  ghost predicate Covers(cfg: Config, s: State, history: seq<Packet>, k: nat) {
    k <= |history| && (!s.truncated ==> k == 0) &&
    Since(s.packets, Cutoff(cfg, s.latest)) == Since(history[k..], Cutoff(cfg, s.latest))
  }

  /** Skipping the first packet inside the window skips some front of the history. */
  lemma {:induction false} SkipFirst(history: seq<Packet>, k: nat, cutoff: nat) returns (k': nat)
    requires k <= |history| && Since(history[k..], cutoff) != []
    ensures k < k' <= |history| && Since(history[k'..], cutoff) == Since(history[k..], cutoff)[1..]
    decreases |history| - k
  {
    assert k < |history|;
    assert history[k..][1..] == history[k + 1..];
    if history[k].timestamp >= cutoff {
      k' := k + 1;
    } else {
      assert [] + Since(history[k + 1..], cutoff) == Since(history[k + 1..], cutoff);
      k' := SkipFirst(history, k + 1, cutoff);
    }
  }

  lemma {:induction false} EvictCovers(cfg: Config, s: State, history: seq<Packet>, k: nat) returns (k': nat)
    requires s.bytes == Bytes(s.packets) && Covers(cfg, s, history, k)
    ensures Covers(cfg, EvictLoop(cfg, s), history, k')
    decreases |s.packets|
  {
    k' := k;
    if MustEvict(cfg, s) {
      var cutoff := Cutoff(cfg, s.latest);
      if s.packets[0].timestamp >= cutoff {
        k' := SkipFirst(history, k, cutoff);
      } else {
        assert [] + Since(s.packets[1..], cutoff) == Since(s.packets[1..], cutoff);
      }
      k' := EvictCovers(cfg, DropHead(cfg, s), history, k');
    }
  }

  lemma {:induction false} AppendCovers(
      cfg: Config, s: State, history: seq<Packet>, k: nat, p: Packet, latest: nat, bytes: nat)
    requires Covers(cfg, s, history, k) && latest >= s.latest
    ensures Covers(cfg, s.(packets := s.packets + [p], latest := latest, bytes := bytes), history + [p], k)
  {
    var early, late := Cutoff(cfg, s.latest), Cutoff(cfg, latest);
    SinceTwice(s.packets, early, late);
    SinceTwice(history[k..], early, late);
    SinceConcat(s.packets, [p], late);
    SinceConcat(history[k..], [p], late);
    assert (history + [p])[k..] == history[k..] + [p];
  }

  lemma {:induction false} SkipCovers(cfg: Config, s: State, history: seq<Packet>, k: nat, p: Packet)
    requires Covers(cfg, s, history, k) && p.timestamp < Cutoff(cfg, s.latest)
    ensures Covers(cfg, s, history + [p], k)
  {
    var cutoff := Cutoff(cfg, s.latest);
    SinceConcat(history[k..], [p], cutoff);
    assert (history + [p])[k..] == history[k..] + [p];
    assert [p][1..] == [];
  }

  // ----- Whole runs

  /** What a state of a run owes to the packets offered so far. */
  ghost predicate Faithful(cfg: Config, s: State, stamped: seq<Packet>, unstamped: seq<Packet>, k: nat) {
    s.bytes == Bytes(s.packets) && Covers(cfg, s, stamped, k) &&
    s.latest == Newest(stamped) && s.persistent == unstamped
  }

  lemma {:induction false} WriteFaithful(
      cfg: Config, s: State, stamped: seq<Packet>, unstamped: seq<Packet>, k: nat, o: Offer) returns (k': nat)
    requires Faithful(cfg, s, stamped, unstamped, k) && !s.failed && !Write(cfg, s, o).failed
    ensures var p := o.packet;
            Faithful(cfg, Write(cfg, s, o), stamped + (if p.timestamp != 0 then [p] else []),
                     unstamped + (if p.timestamp == 0 then [p] else []), k')
  {
    var p := o.packet;
    k' := k;
    assert unstamped + [] == unstamped && stamped + [] == stamped;
    if p.timestamp != 0 {
      assert (stamped + [p])[..|stamped|] == stamped;
      if s.latest > cfg.window && p.timestamp < s.latest - cfg.window {
        SkipCovers(cfg, s, stamped, k, p);
      } else {
        k' := StoreCovers(cfg, s, stamped, k, p);
      }
    }
  }

  lemma {:induction false} RunFaithful(cfg: Config, offers: seq<Offer>) returns (k: nat)
    requires !Run(cfg, offers).failed
    ensures Faithful(cfg, Run(cfg, offers), Stamped(offers), Unstamped(offers), k)
    decreases |offers|
  {
    k := 0;
    if offers != [] {
      var front, o := offers[..|offers| - 1], offers[|offers| - 1];
      k := RunFaithful(cfg, front);
      k := WriteFaithful(cfg, Run(cfg, front), Stamped(front), Unstamped(front), k, o);
    }
  }

  lemma {:induction false} StoreCovers(cfg: Config, s: State, history: seq<Packet>, k: nat, p: Packet) returns (k': nat)
    requires s.bytes == Bytes(s.packets) && Covers(cfg, s, history, k) && !s.failed && p.timestamp != 0
    requires !(s.latest > cfg.window && p.timestamp < s.latest - cfg.window)
    ensures var t := Write(cfg, s, Offer(p, true, true));
            Covers(cfg, t, history + [p], k') && t.persistent == s.persistent &&
            t.latest == if p.timestamp > s.latest then p.timestamp else s.latest
  {
    var latest := if p.timestamp > s.latest then p.timestamp else s.latest;
    BytesAppend(s.packets, p);
    AppendCovers(cfg, s, history, k, p, latest, s.bytes + |p.data|);
    var s1 := s.(packets := s.packets + [p], bytes := s.bytes + |p.data|, latest := latest);
    EvictBytes(cfg, s1);
    k' := EvictCovers(cfg, s1, history + [p], k);
  }

  /** What is written at close, after native_ring_prune_all: the unstamped packets, all of them, and
      then the stamped ones that remain. */
  function Closed(cfg: Config, s: State): seq<Packet> {
    Since(s.packets, Cutoff(cfg, s.latest))
  }

  /** The ring equals a filter of history.  Without truncation the timestamped packets written are
      exactly all packets ever offered that lie at or after the final cutoff, in order; with it they
      are that filter applied to some suffix of the history. */
  lemma {:induction false} RingIsFilterOfHistory(cfg: Config, offers: seq<Offer>)
    ensures var s := Run(cfg, offers);
            var history := Stamped(Heeded(cfg, offers));
            var cutoff := Cutoff(cfg, Newest(history));
            (exists k: nat :: k <= |history| && Closed(cfg, s) == Since(history[k..], cutoff)) &&
            (!s.truncated ==> Closed(cfg, s) == Since(history, cutoff)) &&
            s.persistent == Unstamped(Heeded(cfg, offers))
  {
    FailureFreezes(cfg, offers);
    var heeded := Heeded(cfg, offers);
    var k := RunFaithful(cfg, heeded);
    assert Stamped(heeded)[0..] == Stamped(heeded);
  }

  /** The offers before the first failed allocation: all of them if there was none. */
  ghost function Heeded(cfg: Config, offers: seq<Offer>): (r: seq<Offer>)
    ensures r <= offers && !Run(cfg, r).failed
    ensures !Run(cfg, offers).failed ==> r == offers
    ensures |r| < |offers| ==> Run(cfg, offers[..|r| + 1]).failed
  {
    if !Run(cfg, offers).failed then offers
    else
      var r := Heeded(cfg, offers[..|offers| - 1]);
      assert |r| < |offers| - 1 ==> offers[..|offers| - 1][..|r| + 1] == offers[..|r| + 1];
      assert |r| == |offers| - 1 ==> offers[..|r| + 1] == offers;
      r
  }

  /** A failed allocation leaves the ring as it was, and so does everything after it; what is in it
      is still written at close. */
  lemma {:induction false} FailureFreezes(cfg: Config, offers: seq<Offer>)
    ensures Run(cfg, offers) == Run(cfg, Heeded(cfg, offers)).(failed := Run(cfg, offers).failed)
  {
    if Run(cfg, offers).failed {
      var front := offers[..|offers| - 1];
      FailureFreezes(cfg, front);
      FailedWrite(cfg, Run(cfg, front), offers[|offers| - 1]);
    }
  }

  lemma {:induction false} FailedWrite(cfg: Config, s: State, o: Offer)
    requires s.bytes == Bytes(s.packets) && Write(cfg, s, o).failed
    ensures Write(cfg, s, o) == s.(failed := true)
  {
    var p := o.packet;
    BytesAppend(s.packets, p);
    EvictBytes(cfg, s.(packets := s.packets + [p], bytes := s.bytes + |p.data|,
                       latest := if p.timestamp > s.latest then p.timestamp else s.latest));
  }

  /** The byte count is exact and the guardrail holds after every write. */
  lemma {:induction false} GuardrailHolds(cfg: Config, offers: seq<Offer>)
    ensures Run(cfg, offers).bytes == Bytes(Run(cfg, offers).packets) <= cfg.maxBytes
    decreases |offers|
  {
    if offers != [] {
      GuardrailHolds(cfg, offers[..|offers| - 1]);
      var s, p := Run(cfg, offers[..|offers| - 1]), offers[|offers| - 1].packet;
      BytesAppend(s.packets, p);
      EvictBytes(cfg, s.(packets := s.packets + [p], bytes := s.bytes + |p.data|,
                         latest := if p.timestamp > s.latest then p.timestamp else s.latest));
    }
  }

  // ----- The ring itself

  class Ring {
    const cfg: Config
    var packets: seq<Packet>
    var bytes: nat
    var latest: nat
    var truncated: bool
    var failed: bool
    var persistent: seq<Packet>

    ghost predicate Valid()
      reads this
    {
      bytes == Bytes(packets)
    }

    ghost function Model(): State
      reads this
    {
      State(packets, bytes, latest, truncated, failed, persistent)
    }

    constructor (cfg: Config)
      ensures Valid() && this.cfg == cfg && Model() == Run(cfg, [])
    {
      this.cfg := cfg;
      packets, bytes, latest, truncated, failed, persistent := [], 0, 0, false, false, [];
    }

    /** native_ring_evict */
    method Evict()
      requires Valid()
      modifies this
      ensures Valid() && Model() == EvictLoop(cfg, old(Model()))
    {
      var cutoff := if latest > cfg.window then latest - cfg.window else 0;
      while packets != [] && (packets[0].timestamp < cutoff || bytes > cfg.maxBytes)
        invariant Valid() && cutoff == Cutoff(cfg, latest)
        invariant EvictLoop(cfg, Model()) == EvictLoop(cfg, old(Model()))
        decreases |packets|
      {
        if bytes > cfg.maxBytes {
          truncated := true;
        }
        var packet := packets[0];
        packets := packets[1..];
        bytes := bytes - |packet.data|;
      }
    }

    /** native_write_packet_at */
    method WriteAt(packet: Packet, wrapped: bool, stored: bool)
      requires Valid()
      modifies this
      ensures Valid() && Model() == Write(cfg, old(Model()), Offer(packet, wrapped, stored))
    {
      if failed {
        return;
      }
      if !wrapped {
        failed := true;
        return;
      }
      if packet.timestamp != 0 && latest > cfg.window && packet.timestamp < latest - cfg.window {
        return;
      }
      if !stored {
        failed := true;
        return;
      }
      if packet.timestamp == 0 {
        persistent := persistent + [packet];
      } else {
        BytesAppend(packets, packet);
        packets := packets + [packet];
        bytes := bytes + |packet.data|;
        if packet.timestamp > latest {
          latest := packet.timestamp;
        }
        Evict();
      }
    }

    /** native_ring_prune_all: also drops old packets that sit behind newer ones. */
    method PruneAll()
      requires Valid()
      modifies this`packets, this`bytes
      ensures Valid() && packets == Closed(cfg, old(Model()))
    {
      var cutoff := if latest > cfg.window then latest - cfg.window else 0;
      var kept: seq<Packet> := [];
      var next := packets;
      while next != []
        invariant cutoff == Cutoff(cfg, latest)
        invariant kept + Since(next, cutoff) == Closed(cfg, old(Model()))
        invariant bytes == Bytes(kept) + Bytes(next)
        decreases |next|
      {
        var packet := next[0];
        if packet.timestamp < cutoff {
          bytes := bytes - |packet.data|;
          assert [] + Since(next[1..], cutoff) == Since(next[1..], cutoff);
        } else {
          BytesAppend(kept, packet);
          assert kept + ([packet] + Since(next[1..], cutoff)) == kept + [packet] + Since(next[1..], cutoff);
          kept := kept + [packet];
        }
        next := next[1..];
      }
      packets := kept;
    }
  }
}
