/** Records as they lie in the byte ring of the capture queue: a fixed header (size, cpu, loss
    count) followed by the sample.  The header is copied as it lies in memory, which is
    little-endian on every target of the program. */
module QueueRecords {
  import opened Bits

  const HEADER_BYTES := 16
  const MAX_SAMPLE_BYTES := 65536

  /** What the producer offers: a sample from a cpu, or a count of events the kernel lost. */
  datatype Record = Event(cpu: int, sample: seq<byte>) | Loss(cpu: int, lost: nat)
  {
    /** The value ranges of the C fields; a loss count of zero is never pushed. */
    predicate Representable() {
      -0x8000_0000 <= cpu < 0x8000_0000 &&
      match this
      case Event(_, sample) => |sample| < 0x1_0000_0000
      case Loss(_, lost) => 0 < lost < 0x1_0000_0000_0000_0000
    }

    function Size(): nat {
      if Event? then |sample| else 0
    }

    function LostCount(): nat {
      if Loss? then lost else 0
    }
  }

  function Unsigned32(x: int): nat
    requires -0x8000_0000 <= x < 0x8000_0000
  {
    if x < 0 then x + 0x1_0000_0000 else x
  }

  function Signed32(v: nat): int {
    if v >= 0x8000_0000 then v - 0x1_0000_0000 else v
  }

  function Header(r: Record): (h: seq<byte>)
    requires r.Representable()
    ensures |h| == HEADER_BYTES
  {
    Store(r.Size(), 4) + Store(Unsigned32(r.cpu), 4) + Store(r.LostCount(), 8)
  }

  function Encode(r: Record): (b: seq<byte>)
    requires r.Representable()
    ensures |b| == HEADER_BYTES + r.Size()
  {
    Header(r) + if r.Event? then r.sample else []
  }

  function HeaderSize(h: seq<byte>): nat
    requires |h| == HEADER_BYTES
  {
    Load(h[..4])
  }

  /** What the worker makes of a header and the sample bytes that follow it. */
  function Decode(h: seq<byte>, sample: seq<byte>): Record
    requires |h| == HEADER_BYTES
  {
    var lost := Load(h[8..]);
    var cpu := Signed32(Load(h[4..8]));
    if lost != 0 then Loss(cpu, lost) else Event(cpu, sample)
  }

  lemma {:induction false} HeaderParts(a: seq<byte>, b: seq<byte>, c: seq<byte>)
    requires |a| == 4 && |b| == 4 && |c| == 8
    ensures var h := a + b + c; h[..4] == a && h[4..8] == b && h[8..] == c
  {
  }

  /** A header read back gives the size to read next, and then the record that was pushed. */
  lemma {:induction false} HeaderRoundTrip(r: Record)
    requires r.Representable()
    ensures HeaderSize(Header(r)) == r.Size()
    ensures Decode(Header(r), if r.Event? then r.sample else []) == r
  {
    HeaderParts(Store(r.Size(), 4), Store(Unsigned32(r.cpu), 4), Store(r.LostCount(), 8));
    Widths();
    LoadStore(r.Size(), 4);
    LoadStore(Unsigned32(r.cpu), 4);
    LoadStore(r.LostCount(), 8);
  }

  ghost predicate AllRepresentable(rs: seq<Record>) {
    forall i :: 0 <= i < |rs| ==> rs[i].Representable()
  }

  function EncodeAll(rs: seq<Record>): seq<byte>
    requires forall i :: 0 <= i < |rs| ==> rs[i].Representable()
  {
    if rs == [] then [] else Encode(rs[0]) + EncodeAll(rs[1..])
  }

  lemma {:induction false} Associative(a: seq<byte>, b: seq<byte>, c: seq<byte>)
    ensures a + (b + c) == (a + b) + c
  {
  }

  lemma {:induction false} EncodeAllAppend(rs: seq<Record>, r: Record)
    requires AllRepresentable(rs) && r.Representable()
    ensures EncodeAll(rs + [r]) == EncodeAll(rs) + Encode(r)
  {
    if rs == [] {
      assert rs + [r] == [r] && [r][1..] == [];
    } else {
      EncodeAllAppend(rs[1..], r);
      assert (rs + [r])[1..] == rs[1..] + [r];
      Associative(Encode(rs[0]), EncodeAll(rs[1..]), Encode(r));
    }
  }

  /** Ring bytes taken by a queue of records. */
  function Used(rs: seq<Record>): nat {
    if rs == [] then 0 else HEADER_BYTES + rs[0].Size() + Used(rs[1..])
  }

  lemma {:induction false} EncodeAllLength(rs: seq<Record>)
    requires AllRepresentable(rs)
    ensures |EncodeAll(rs)| == Used(rs)
  {
    if rs != [] {
      EncodeAllLength(rs[1..]);
    }
  }
}
