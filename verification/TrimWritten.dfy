/** Trimming what was written: with the field numbers spelled out, from the writers' side. */
module TrimWritten {
  import opened Bits
  import opened Wrappers
  import opened Wire
  import opened Trim
  import opened TrimPacket
  import opened TrimStream
  import opened ProtoWriter
  import TrimCode

  // ----- The last number written

  /** The field at an index is a varint of that number. */
  ghost predicate VarintAt(fs: seq<Field>, number: nat, i: nat) {
    i < |fs| && fs[i].Number() == number && fs[i].WireType() == 0
  }

  /** A number is read as the last varint of its field. */
  lemma {:induction false} LastOfExactly(fs: seq<Field>, number: nat, v: nat)
    ensures LastOf(fs, number) == Some(v) <==>
              exists i: nat :: VarintAt(fs, number, i) && fs[i].value == v &&
                forall j: nat :: i < j < |fs| ==> !VarintAt(fs, number, j)
  {
    if fs != [] {
      var front, last := fs[..|fs| - 1], fs[|fs| - 1];
      LastOfExactly(front, number, v);
      assert forall i: nat :: i < |front| ==> (VarintAt(fs, number, i) <==> VarintAt(front, number, i));
      assert forall i: nat :: i < |front| ==> fs[i] == front[i];
      assert VarintAt(fs, number, |front|) <==> IsVarint(last, number);
    }
  }

  /** The last varint that was written for a number. */
  ghost function LastWritten(ws: seq<Written>, number: nat): Option<nat> {
    if ws == [] then None
    else
      var last := ws[|ws| - 1];
      if last.Uint? && last.number == number then Some(last.value) else LastWritten(ws[..|ws| - 1], number)
  }

  ghost predicate Writable(ws: seq<Written>) {
    forall i :: 0 <= i < |ws| ==> ws[i].Representable() && ws[i].Key() != 0
  }

  lemma {:induction false} WrittenField(w: Written)
    requires w.Representable()
    ensures w.ReadsAs().Number() == w.number
    ensures w.ReadsAs().WireType() == match w case Uint(_, _) => 0 case Fixed64(_, _) => 1 case Text(_, _) => 2
  {
    NumberSurvives(w);
  }

  lemma {:induction false} AllReadAsMore(ws: seq<Written>, w: Written)
    ensures AllReadAs(ws + [w]) == AllReadAs(ws) + [w.ReadsAs()]
  {
    if ws == [] {
      assert ws + [w] == [w] && [w][1..] == [];
    } else {
      AllReadAsMore(ws[1..], w);
      assert (ws + [w])[1..] == ws[1..] + [w];
      FirstAndLast([ws[0].ReadsAs()], AllReadAs(ws[1..]), [w.ReadsAs()]);
    }
  }

  lemma {:induction false} FirstAndLast<T>(a: seq<T>, b: seq<T>, c: seq<T>)
    ensures a + (b + c) == a + b + c
  {
  }

  /** What is read is what was written last. */
  lemma {:induction false} LastIsWritten(ws: seq<Written>, number: nat)
    requires Writable(ws)
    ensures LastOf(AllReadAs(ws), number) == LastWritten(ws, number)
  {
    if ws != [] {
      var front, w := ws[..|ws| - 1], ws[|ws| - 1];
      LastIsWritten(front, number);
      assert ws == front + [w];
      AllReadAsMore(front, w);
      WrittenField(w);
      var fs := AllReadAs(front) + [w.ReadsAs()];
      assert fs[..|fs| - 1] == AllReadAs(front);
    }
  }

  lemma {:induction false} VarintIsWritten(ws: seq<Written>, number: nat)
    requires Writable(ws)
    ensures LastVarint(AllBytes(ws), number) == Ok(LastWritten(ws, number))
  {
    ParseWhatWasWritten(ws);
    LastIsWritten(ws, number);
  }

  // ----- A written bundle

  /** A part of a bundle: an event, which is a message of its own, or any other field. */
  datatype Part = Event(fields: seq<Written>) | Other(field: Written)

  ghost predicate PartOk(p: Part) {
    match p
    case Event(fields) => Writable(fields) && |AllBytes(fields)| < U64
    case Other(w) => w.Representable() && w.Key() != 0 && w.number != 4 && !(w.number == 2 && w.Text?)
  }

  /** Events are field 2 of a bundle. */
  ghost function PartField(p: Part): Written {
    match p case Event(fields) => Text(2, AllBytes(fields)) case Other(w) => w
  }

  ghost function BundleFields(parts: seq<Part>): seq<Written> {
    if parts == [] then [] else [PartField(parts[0])] + BundleFields(parts[1..])
  }

  /** The parts that stay: all but the events whose last field 1 is below the cutoff. */
  ghost function Staying(parts: seq<Part>, cutoff: nat): seq<Part> {
    if parts == [] then []
    else
      var stamp := if parts[0].Event? then LastWritten(parts[0].fields, 1) else None;
      (if stamp.Some? && stamp.value < cutoff then [] else [parts[0]]) + Staying(parts[1..], cutoff)
  }

  lemma {:induction false} PartReads(p: Part, rest: seq<byte>)
    requires PartOk(p)
    ensures var f := PartField(p).ReadsAs();
            f.raw == PartField(p).Bytes() && f.raw != [] && NextField(f.raw + rest) == Ok(f) &&
            f.Number() != 4 && (IsEvent(f) <==> p.Event?) && (p.Event? ==> f.payload == AllBytes(p.fields))
  {
    FieldReadsBack(PartField(p), rest);
    WrittenField(PartField(p));
  }

  lemma {:induction false} PartPiece(p: Part, cutoff: nat)
    requires PartOk(p)
    ensures var stamp := if p.Event? then LastWritten(p.fields, 1) else None;
            TrimBundleField(PartField(p).ReadsAs(), cutoff) ==
            Ok(if stamp.Some? && stamp.value < cutoff then [] else PartField(p).Bytes())
  {
    PartReads(p, []);
    if p.Event? { VarintIsWritten(p.fields, 1); }
  }

  lemma {:induction false} BundleBytes(p: Part, parts: seq<Part>)
    ensures AllBytes(BundleFields([p] + parts)) == PartField(p).Bytes() + AllBytes(BundleFields(parts))
  {
    assert ([p] + parts)[1..] == parts;
    assert ([PartField(p)] + BundleFields(parts))[1..] == BundleFields(parts);
  }

  /** Trimming a written bundle writes the bundle without the events stamped below the cutoff: events are
      field 2 and their stamps field 1. */
  lemma {:induction false} WrittenBundleTrims(parts: seq<Part>, cutoff: nat)
    requires forall i :: 0 <= i < |parts| ==> PartOk(parts[i])
    ensures TrimBundle(AllBytes(BundleFields(parts)), cutoff) == Ok(AllBytes(BundleFields(Staying(parts, cutoff))))
  {
    if parts != [] {
      var p, rest := parts[0], parts[1..];
      assert parts == [p] + rest;
      WrittenBundleTrims(rest, cutoff);
      BundleBytes(p, rest);
      PartReads(p, AllBytes(BundleFields(rest)));
      PartPiece(p, cutoff);
      var raw, tail := PartField(p).Bytes(), AllBytes(BundleFields(rest));
      assert (raw + tail)[|raw|..] == tail;
      var out := AllBytes(BundleFields(Staying(rest, cutoff)));
      assert [] + out == out && [] + Staying(rest, cutoff) == Staying(rest, cutoff);
      BundleBytes(p, Staying(rest, cutoff));
    }
  }

  /** A bundle that has a compressed part, which is field 4, is refused. */
  lemma {:induction false} CompressedBundleIsRefused(w: Written, rest: seq<byte>, cutoff: nat)
    requires w.Representable() && w.number == 4
    ensures TrimBundle(w.Bytes() + rest, cutoff) == Err(CompressedBundle)
  {
    FieldReadsBack(w, rest);
    WrittenField(w);
    assert w.Bytes() + rest != [];
  }

  // ----- A written packet

  /** Fields of a packet that hold numbers or are only copied: no bundle, no defaults, nothing unsupported. */
  ghost predicate PlainPacket(ws: seq<Written>) {
    Writable(ws) && forall i :: 0 <= i < |ws| ==> ws[i].number !in {1, 50, 59, 133}
  }

  /** The clock of a packet by its fields 58 and 10 and the defaults so far. */
  ghost function WrittenClock(ws: seq<Written>, clocks: ClockTable): nat {
    match LastWritten(ws, 58)
    case Some(clock) => if clock != 0 then clock else DefaultClock(ws, clocks)
    case None => DefaultClock(ws, clocks)
  }

  ghost function DefaultClock(ws: seq<Written>, clocks: ClockTable): nat {
    match LastWritten(ws, 10)
    case Some(sequence) => if sequence in clocks then clocks[sequence] else 0
    case None => 0
  }

  /** Its stamp is field 8; clocks 0 and 6 count against the boottime cutoff, 3 against the monotonic one. */
  ghost predicate WrittenTooOld(ws: seq<Written>, c: Cutoffs, clocks: ClockTable) {
    LastWritten(ws, 8).Some? &&
    var stamp, clock := LastWritten(ws, 8).value, WrittenClock(ws, clocks);
    ((clock == 0 || clock == 6) && stamp < c.boottime) || (clock == 3 && stamp < c.monotonic)
  }

  lemma {:induction false} PlainFieldsRead(ws: seq<Written>, i: nat)
    requires PlainPacket(ws)
    ensures |AllReadAs(ws)| == |ws|
    ensures i < |ws| ==> AllReadAs(ws)[i] == ws[i].ReadsAs() && AllReadAs(ws)[i].Number() == ws[i].number
  {
    if ws != [] {
      WrittenField(ws[0]);
      PlainFieldsRead(ws[1..], if i == 0 then 0 else i - 1);
    }
  }

  lemma {:induction false} PlainDefaults(fs: seq<Field>)
    requires forall i :: 0 <= i < |fs| ==> fs[i].Number() != 59
    ensures DefaultsOf(fs) == None
  {
    if fs != [] { PlainDefaults(fs[..|fs| - 1]); }
  }

  lemma {:induction false} BundleInFields(f: Field, fs: seq<Field>)
    ensures HasBundle([f] + fs) <==> IsBundle(f) || HasBundle(fs)
  {
    assert ([f] + fs)[0] == f;
    assert forall i :: 0 <= i < |fs| ==> ([f] + fs)[i + 1] == fs[i];
  }

  lemma {:induction false} PlainTrims(s: seq<byte>, cutoff: nat)
    requires ParseFields(s).Ok? && !HasBundle(ParseFields(s).value)
    ensures TrimFields(s, cutoff) == Ok(s)
    decreases |s|
  {
    if s != [] {
      var f, rest := ParseHead(s);
      BundleInFields(f, ParseFields(rest).value);
      assert s[|f.raw|..] == rest;
      PlainTrims(rest, cutoff);
    }
  }

  lemma {:induction false} DefaultsInFront(f: Field, fs: seq<Field>)
    requires forall i :: 0 <= i < |fs| ==> fs[i].Number() != 59
    ensures DefaultsOf([f] + fs) == DefaultsOf([f])
  {
    if fs == [] {
      assert [f] + fs == [f];
    } else {
      DefaultsInFront(f, fs[..|fs| - 1]);
      assert ([f] + fs)[..|fs|] == [f] + fs[..|fs| - 1];
    }
  }

  lemma {:induction false} TextInFront(t: Written, ws: seq<Written>, number: nat)
    requires t.Text?
    ensures LastWritten([t] + ws, number) == LastWritten(ws, number)
  {
    if ws == [] {
      assert [t] + ws == [t] && [t][..0] == [];
    } else {
      TextInFront(t, ws[..|ws| - 1], number);
      assert ([t] + ws)[..|ws|] == [t] + ws[..|ws| - 1];
    }
  }

  /** What the packet's numbers are, told from what was written. */
  ghost predicate Knows(ws: seq<Written>, m: Metadata) {
    m.timestamp == LastWritten(ws, 8) && m.sequence == LastWritten(ws, 10) &&
    m.clock == OrZero(LastWritten(ws, 58)) &&
    m.ftrace == HasBundle(AllReadAs(ws)) && m.defaultClock == DefaultsOf(AllReadAs(ws))
  }

  lemma {:induction false} WrittenMetadata(ws: seq<Written>)
    requires Writable(ws) && AllSupported(AllReadAs(ws))
    ensures ParseFields(AllBytes(ws)) == Ok(AllReadAs(ws))
    ensures MetadataFrom(AllBytes(ws), NOTHING_KNOWN).Ok? && Knows(ws, MetadataFrom(AllBytes(ws), NOTHING_KNOWN).value)
  {
    ParseWhatWasWritten(ws);
    MetadataExactly(AllBytes(ws));
    MetadataIsFields(AllBytes(ws));
    LastIsWritten(ws, 8);
    LastIsWritten(ws, 10);
    LastIsWritten(ws, 58);
  }

  ghost predicate PlainFields(fs: seq<Field>) {
    forall i :: 0 <= i < |fs| ==> fs[i].Number() !in {1, 50, 59, 133}
  }

  lemma {:induction false} PlainReads(ws: seq<Written>)
    requires PlainPacket(ws)
    ensures PlainFields(AllReadAs(ws))
  {
    forall i | 0 <= i < |AllReadAs(ws)| ensures AllReadAs(ws)[i].Number() !in {1, 50, 59, 133} {
      PlainFieldsRead(ws, 0);
      PlainFieldsRead(ws, i);
    }
  }

  /** A written packet without a bundle is dropped or kept byte for byte, by its own numbers and the
      defaults of its sequence; without defaults of its own it teaches none. */
  lemma {:induction false} WrittenPacketJudged(ws: seq<Written>, c: Cutoffs, clocks: ClockTable)
    requires PlainPacket(ws)
    ensures TrimOne(AllBytes(ws), c, clocks) ==
            Ok(Fate(if WrittenTooOld(ws, c, clocks) then None else Some(AllBytes(ws)), clocks))
  {
    PlainReads(ws);
    PlainDefaults(AllReadAs(ws));
    WrittenMetadata(ws);
    PlainTrims(AllBytes(ws), c.boottime);
    JudgedAsWritten(ws, MetadataFrom(AllBytes(ws), NOTHING_KNOWN).value, c, clocks);
  }

  // ----- A bundle or defaults in front of such fields

  lemma {:induction false} FrontField(t: Written)
    requires t.Text? && t.Representable() && t.number != 0
    ensures var f := t.ReadsAs();
            t.Key() != 0 && f.Number() == t.number && f.WireType() == 2 && f.payload == t.content && f.raw == t.Bytes()
  {
    WrittenField(t);
  }

  lemma {:induction false} FrontFields(f: Field, fs: seq<Field>)
    requires f.Number() in {1, 59} && f.WireType() == 2 && PlainFields(fs)
    requires f.Number() == 59 ==> ParseFields(f.payload).Ok?
    ensures AllSupported([f] + fs) && (HasBundle([f] + fs) <==> f.Number() == 1)
    ensures DefaultsOf([f] + fs) ==
            if f.Number() == 1 then None else match LastVarint(f.payload, 58) case Ok(v) => v case Err(_) => None
  {
    DefaultsInFront(f, fs);
    assert [f][..0] == [] && ([f] + fs)[0] == f;
    assert forall i :: 0 <= i < |[f] + fs| ==> i == 0 || ([f] + fs)[i] == fs[i - 1];
  }

  lemma {:induction false} FrontWrites(t: Written, ws: seq<Written>)
    requires t.Representable() && t.Key() != 0 && Writable(ws)
    ensures Writable([t] + ws) && AllReadAs([t] + ws) == [t.ReadsAs()] + AllReadAs(ws)
    ensures AllBytes([t] + ws) == t.Bytes() + AllBytes(ws)
  {
    assert ([t] + ws)[1..] == ws;
  }

  /** What such a packet is known to be. */
  lemma {:induction false} FrontMetadata(t: Written, ws: seq<Written>)
    requires t.Text? && t.Representable() && t.number in {1, 59} && PlainPacket(ws)
    requires t.number == 59 ==> ParseFields(t.content).Ok?
    ensures ParseFields(AllBytes([t] + ws)) == Ok([t.ReadsAs()] + AllReadAs(ws))
    ensures var m := MetadataFrom(AllBytes([t] + ws), NOTHING_KNOWN);
            m.Ok? && m.value.timestamp == LastWritten(ws, 8) && m.value.sequence == LastWritten(ws, 10) &&
            m.value.clock == OrZero(LastWritten(ws, 58)) && m.value.ftrace == (t.number == 1) &&
            m.value.defaultClock ==
              if t.number == 1 then None else match LastVarint(t.content, 58) case Ok(v) => v case Err(_) => None
  {
    FrontField(t);
    FrontWrites(t, ws);
    PlainReads(ws);
    FrontFields(t.ReadsAs(), AllReadAs(ws));
    WrittenMetadata([t] + ws);
    TextInFront(t, ws, 8);
    TextInFront(t, ws, 10);
    TextInFront(t, ws, 58);
  }

  /** Defaults, which are field 59 with the clock in field 58, become those of the packet's sequence, and
      count for the packet itself. */
  lemma {:induction false} WrittenDefaultsAreLearnt(
      inner: seq<Written>, ws: seq<Written>, c: Cutoffs, clocks: ClockTable)
    requires PlainPacket(ws) && Writable(inner) && |AllBytes(inner)| < U64
    ensures var s := AllBytes([Text(59, AllBytes(inner))] + ws);
            var clock, sequence := LastWritten(inner, 58), LastWritten(ws, 10);
            var learnt := if clock.Some? && sequence.Some? then clocks[sequence.value := clock.value] else clocks;
            TrimOne(s, c, clocks) == Ok(Fate(if WrittenTooOld(ws, c, learnt) then None else Some(s), learnt))
  {
    var t := Text(59, AllBytes(inner));
    ParseWhatWasWritten(inner);
    VarintIsWritten(inner, 58);
    FrontMetadata(t, ws);
    DefaultsTrim(t, ws, c.boottime);
    var m := MetadataFrom(AllBytes([t] + ws), NOTHING_KNOWN).value;
    JudgedAsWritten(ws, m, c, LearnDefault(clocks, m));
  }

  lemma {:induction false} JudgedAsWritten(ws: seq<Written>, m: Metadata, c: Cutoffs, clocks: ClockTable)
    requires m.timestamp == LastWritten(ws, 8) && m.sequence == LastWritten(ws, 10)
    requires m.clock == OrZero(LastWritten(ws, 58)) && !m.ftrace
    ensures TooOld(m, ClockOf(clocks, m), c) <==> WrittenTooOld(ws, c, clocks)
  {
  }

  lemma {:induction false} DefaultsTrim(t: Written, ws: seq<Written>, cutoff: nat)
    requires t.Text? && t.Representable() && t.number == 59 && PlainPacket(ws)
    requires ParseFields(AllBytes([t] + ws)) == Ok([t.ReadsAs()] + AllReadAs(ws))
    ensures TrimFields(AllBytes([t] + ws), cutoff) == Ok(AllBytes([t] + ws))
  {
    FrontField(t);
    PlainReads(ws);
    var f, fs := t.ReadsAs(), AllReadAs(ws);
    assert forall i :: 0 <= i < |[f] + fs| ==> ([f] + fs)[i] == if i == 0 then f else fs[i - 1];
    PlainTrims(AllBytes([t] + ws), cutoff);
  }

  lemma {:induction false} BundleInFront(t: Written, trimmed: seq<byte>, rest: seq<byte>, cutoff: nat)
    requires t.Text? && t.Representable() && t.number == 1
    requires TrimBundle(t.content, cutoff) == Ok(trimmed) && TrimFields(rest, cutoff) == Ok(rest)
    ensures TrimFields(t.Bytes() + rest, cutoff) == Ok(Text(1, trimmed).Bytes() + rest)
  {
    FrontField(t);
    FieldReadsBack(t, rest);
    var s := t.Bytes() + rest;
    assert s[|t.Bytes()|..] == rest && s != [];
    var k, n := Encode(t.Key()), Encode(|trimmed|);
    assert k + n + trimmed == k + (n + trimmed);
    assert TrimField(t.ReadsAs(), cutoff) == Ok(Text(1, trimmed).Bytes());
  }

  lemma {:induction false} BundleTrims(parts: seq<Part>, ws: seq<Written>, cutoff: nat)
    requires PlainPacket(ws)
    requires forall i :: 0 <= i < |parts| ==> PartOk(parts[i])
    requires |AllBytes(BundleFields(parts))| < U64
    ensures TrimFields(AllBytes([Text(1, AllBytes(BundleFields(parts)))] + ws), cutoff) ==
            Ok(AllBytes([Text(1, AllBytes(BundleFields(Staying(parts, cutoff))))] + ws))
  {
    var t := Text(1, AllBytes(BundleFields(parts)));
    var t' := Text(1, AllBytes(BundleFields(Staying(parts, cutoff))));
    WrittenBundleTrims(parts, cutoff);
    PlainReads(ws);
    ParseWhatWasWritten(ws);
    PlainTrims(AllBytes(ws), cutoff);
    BundleInFront(t, t'.content, AllBytes(ws), cutoff);
    assert ([t] + ws)[1..] == ws && ([t'] + ws)[1..] == ws;
  }

  /** A packet with a bundle, which is field 1, is kept whatever its stamp, with the bundle trimmed. */
  lemma {:induction false} WrittenBundleIsKept(parts: seq<Part>, ws: seq<Written>, c: Cutoffs, clocks: ClockTable)
    requires PlainPacket(ws)
    requires forall i :: 0 <= i < |parts| ==> PartOk(parts[i])
    requires |AllBytes(BundleFields(parts))| < U64
    ensures TrimOne(AllBytes([Text(1, AllBytes(BundleFields(parts)))] + ws), c, clocks) ==
            Ok(Fate(Some(AllBytes([Text(1, AllBytes(BundleFields(Staying(parts, c.boottime))))] + ws)), clocks))
  {
    FrontMetadata(Text(1, AllBytes(BundleFields(parts))), ws);
    BundleTrims(parts, ws, c.boottime);
  }
}
