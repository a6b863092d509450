/** What the trailing-window ring gives up: no more than the window and the byte guardrail demand. */
module TrailingEviction {
  import opened TrailingRing

  /** The start of the window. */
  ghost function WindowStart(cfg: Config, latest: nat): nat {
    if latest > cfg.window then latest - cfg.window else 0
  }

  /** These packets may stay: there are none, or the first lies in the window and all fit. */
  ghost predicate MayStay(cfg: Config, packets: seq<Packet>, latest: nat) {
    packets == [] || (packets[0].timestamp >= WindowStart(cfg, latest) && Bytes(packets) <= cfg.maxBytes)
  }

  /** All packets from the `k`-th on may stay, and no longer suffix may. */
  ghost predicate LongestSuffix(cfg: Config, packets: seq<Packet>, k: nat, latest: nat) {
    k <= |packets| && MayStay(cfg, packets[k..], latest) &&
    forall j :: 0 <= j < k ==> !MayStay(cfg, packets[j..], latest)
  }

  lemma {:induction false} LongestSuffixCons(cfg: Config, packets: seq<Packet>, k: nat, latest: nat)
    requires packets != [] && !MayStay(cfg, packets, latest) && LongestSuffix(cfg, packets[1..], k, latest)
    ensures LongestSuffix(cfg, packets, k + 1, latest) && packets[1..][k..] == packets[k + 1..]
  {
    assert packets[k + 1..] == packets[1..][k..];
    forall j | 0 <= j < k + 1 ensures !MayStay(cfg, packets[j..], latest) {
      if j == 0 {
        assert packets[0..] == packets;
      } else {
        assert packets[j..] == packets[1..][j - 1..];
      }
    }
  }

  /** Eviction leaves the longest suffix that may stay, and marks the trace as truncated exactly when the
      packets did not all fit. */
  lemma {:induction false} EvictionKeepsLongestSuffix(cfg: Config, s: State) returns (k: nat)
    requires s.bytes == Bytes(s.packets)
    ensures var t := EvictLoop(cfg, s);
            LongestSuffix(cfg, s.packets, k, s.latest) && t.packets == s.packets[k..] &&
            (t.truncated <==> s.truncated || Bytes(s.packets) > cfg.maxBytes)
    decreases |s.packets|
  {
    if s.packets != [] && !MayStay(cfg, s.packets, s.latest) {
      var u := DropHead(cfg, s);
      k := EvictionKeepsLongestSuffix(cfg, u);
      LongestSuffixCons(cfg, s.packets, k, s.latest);
      k := k + 1;
    } else {
      k := 0;
      assert s.packets[0..] == s.packets;
    }
  }

  /** What becomes of the ring when a packet is offered to it: a packet without a timestamp is kept for
      good, one from before the window is skipped, and any other is put behind the packets held, of
      which the longest suffix that may stay remains. */
  lemma {:induction false} WriteExactly(cfg: Config, s: State, p: Packet) returns (k: nat)
    requires s.bytes == Bytes(s.packets) && !s.failed
    ensures var t := Write(cfg, s, Offer(p, true, true));
            var latest := if p.timestamp > s.latest then p.timestamp else s.latest;
            !t.failed &&
            if p.timestamp == 0
            then t == s.(persistent := s.persistent + [p])
            else if p.timestamp < WindowStart(cfg, s.latest)
            then t == s
            else t.latest == latest && t.persistent == s.persistent &&
                 LongestSuffix(cfg, s.packets + [p], k, latest) && t.packets == (s.packets + [p])[k..] &&
                 (t.truncated <==> s.truncated || Bytes(s.packets) + |p.data| > cfg.maxBytes)
  {
    k := 0;
    if p.timestamp != 0 && p.timestamp >= WindowStart(cfg, s.latest) {
      BytesAppend(s.packets, p);
      var u := s.(packets := s.packets + [p], bytes := s.bytes + |p.data|,
                  latest := if p.timestamp > s.latest then p.timestamp else s.latest);
      EvictBytes(cfg, u);
      k := EvictionKeepsLongestSuffix(cfg, u);
    }
  }

  lemma {:induction false} SuffixBytes(packets: seq<Packet>, k: nat)
    requires k <= |packets|
    ensures Bytes(packets[k..]) <= Bytes(packets)
  {
    if k > 0 {
      SuffixBytes(packets[1..], k - 1);
      assert packets[1..][k - 1..] == packets[k..];
    } else {
      assert packets[0..] == packets;
    }
  }

  lemma {:induction false} HoldsNoMore(cfg: Config, offers: seq<Offer>)
    ensures Bytes(Run(cfg, offers).packets) <= Bytes(Stamped(offers))
    ensures Bytes(Stamped(offers)) <= cfg.maxBytes ==> !Run(cfg, offers).truncated
  {
    if offers != [] {
      var front, o := offers[..|offers| - 1], offers[|offers| - 1];
      HoldsNoMore(cfg, front);
      OfferHolds(cfg, Run(cfg, front), Stamped(front), o);
    }
  }

  lemma {:induction false} OfferHolds(cfg: Config, s: State, stamped: seq<Packet>, o: Offer)
    requires s.bytes == Bytes(s.packets) <= Bytes(stamped) && (Bytes(stamped) <= cfg.maxBytes ==> !s.truncated)
    ensures var t, all := Write(cfg, s, o), stamped + (if o.packet.timestamp != 0 then [o.packet] else []);
            Bytes(t.packets) <= Bytes(all) && (Bytes(all) <= cfg.maxBytes ==> !t.truncated)
  {
    var p := o.packet;
    BytesAppend(stamped, p);
    assert stamped + [] == stamped;
    if !s.failed && o.wrapped && o.stored {
      var k := WriteExactly(cfg, s, p);
      BytesAppend(s.packets, p);
      if p.timestamp != 0 && p.timestamp >= WindowStart(cfg, s.latest) {
        SuffixBytes(s.packets + [p], k);
      }
    } else {
      NotStored(cfg, s, o);
    }
  }

  lemma {:induction false} NotStored(cfg: Config, s: State, o: Offer)
    requires s.bytes == Bytes(s.packets) && (s.failed || !o.wrapped || !o.stored)
    ensures Write(cfg, s, o).packets == s.packets && Write(cfg, s, o).truncated == s.truncated
  {
  }

  /** A trace whose stamped packets all fit is never truncated, so that what is written at close is
      exactly the filter of all that was offered before the first failure. */
  lemma {:induction false} NothingLostThatFits(cfg: Config, offers: seq<Offer>)
    requires Bytes(Stamped(offers)) <= cfg.maxBytes
    ensures var s, history := Run(cfg, offers), Stamped(Heeded(cfg, offers));
            !s.truncated && Closed(cfg, s) == Since(history, Cutoff(cfg, Newest(history)))
  {
    HoldsNoMore(cfg, offers);
    RingIsFilterOfHistory(cfg, offers);
  }
}
