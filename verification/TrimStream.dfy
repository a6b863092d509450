/** Trimming a whole trace, and what the output means in terms of the packets of the input. */
module TrimStream {
  import opened Wrappers
  import opened Bits
  import opened Wire
  import opened Trim
  import opened TrimPacket

  const PACKET_KEY := 10

  /** The header and payload of the next packet, as trim_stream_packets reads them. */
  function ReadPacket(s: seq<byte>): Result<Field> {
    var k :- Decode(s);
    DecodeFacts(s, []);
    var rest := s[k.length..];
    if k.value != PACKET_KEY then Err(BadMessage)
    else if rest == [] then Err(MissingLength)
    else
      var b :- DelimitedBody(rest);
      DelimitedFacts(rest, []);
      Ok(Field(k.value, 0, b.payload, s[..k.length + b.length]))
  }

  /** The packets of a trace are its top-level fields. */
  lemma {:induction false} PacketIsField(s: seq<byte>)
    requires ReadPacket(s).Ok?
    ensures NextField(s) == ReadPacket(s) && ReadPacket(s).value.key == PACKET_KEY
    ensures Standalone(ReadPacket(s).value)
    ensures |ReadPacket(s).value.raw| <= |s| && s == ReadPacket(s).value.raw + s[|ReadPacket(s).value.raw|..]
    ensures |ReadPacket(s).value.payload| < U64
  {
    DecodeFacts(s, []);
    var k := Decode(s).value;
    var rest := s[k.length..];
    DelimitedFacts(rest, []);
    FieldFrom(s, k, DelimitedBody(rest).value);
    SplitHead(s);
  }

  function Output(fate: Fate): seq<byte> {
    match fate.kept case Some(out) => Delimited(PACKET_KEY, out) case None => []
  }

  /** trim_stream_packets, from a point in the input on. */
  function TrimFrom(s: seq<byte>, c: Cutoffs, clocks: ClockTable): Result<seq<byte>>
    decreases |s|
  {
    if s == [] then Ok([])
    else
      var p :- ReadPacket(s);
      PacketIsField(s);
      var fate :- TrimOne(p.payload, c, clocks);
      var rest :- TrimFrom(s[|p.raw|..], c, fate.clocks);
      Ok(Output(fate) + rest)
  }

  function TrimTrace(s: seq<byte>, c: Cutoffs): Result<seq<byte>> {
    TrimFrom(s, c, map[])
  }

  // ----- The meaning, on parsed packets and without a clock table

  ghost function FieldsOf(packet: seq<byte>): seq<Field> {
    match ParseFields(packet) case Ok(fs) => fs case Err(_) => []
  }

  /** The default clock most recently announced for a sequence. */
  ghost function LatestDefault(packets: seq<seq<byte>>, sequence: nat): Option<nat> {
    if packets == [] then None
    else
      var fs := FieldsOf(packets[|packets| - 1]);
      if LastOf(fs, 10) == Some(sequence) && DefaultsOf(fs).Some? then DefaultsOf(fs)
      else LatestDefault(packets[..|packets| - 1], sequence)
  }

  ghost function OrZero(x: Option<nat>): nat {
    match x case Some(v) => v case None => 0
  }

  /** The clock of the last packet: its own, else the latest default of its sequence, else zero. */
  ghost function EffectiveClock(packets: seq<seq<byte>>): nat
    requires packets != []
  {
    var fs := FieldsOf(packets[|packets| - 1]);
    if OrZero(LastOf(fs, 58)) != 0 then OrZero(LastOf(fs, 58))
    else match LastOf(fs, 10)
         case Some(sequence) => OrZero(LatestDefault(packets, sequence))
         case None => 0
  }

  /** Whether the last packet is below the cutoff of its effective clock. */
  ghost predicate Dropped(packets: seq<seq<byte>>, c: Cutoffs)
    requires packets != []
  {
    var fs := FieldsOf(packets[|packets| - 1]);
    var clock := EffectiveClock(packets);
    !HasBundle(fs) && LastOf(fs, 8).Some? &&
    (((clock == 0 || clock == CLOCK_BOOTTIME) && LastOf(fs, 8).value < c.boottime) ||
     (clock == CLOCK_MONOTONIC && LastOf(fs, 8).value < c.monotonic))
  }

  /** The same fields in the same order, with the old events taken out of every bundle. */
  ghost predicate SameButTrimmed(fs: seq<Field>, gs: seq<Field>, cutoff: nat) {
    |fs| == |gs| &&
    forall i :: 0 <= i < |fs| ==>
      if IsBundle(fs[i])
      then gs[i].key == fs[i].key && ParseFields(fs[i].payload).Ok? &&
           ParseFields(gs[i].payload) == Ok(KeptFields(ParseFields(fs[i].payload).value, cutoff))
      else gs[i] == fs[i]
  }

  ghost predicate KeptAs(p: seq<byte>, q: seq<byte>, cutoff: nat) {
    ParseFields(p).Ok? && ParseFields(q).Ok? && SameButTrimmed(ParseFields(p).value, ParseFields(q).value, cutoff)
  }

  /** `qs` is what must remain of the packets `ps` that follow the packets `before`. */
  ghost predicate Remains(before: seq<seq<byte>>, ps: seq<seq<byte>>, qs: seq<seq<byte>>, c: Cutoffs)
    decreases |ps|
  {
    if ps == [] then qs == []
    else
      var history := before + [ps[0]];
      if Dropped(history, c) then Remains(history, ps[1..], qs, c)
      else qs != [] && KeptAs(ps[0], qs[0], c.boottime) && Remains(history, ps[1..], qs[1..], c)
  }

  // ----- Why the table is the history

  /** The table holds exactly the latest default of every sequence. */
  ghost predicate TableIs(clocks: ClockTable, packets: seq<seq<byte>>) {
    forall q: nat :: (q in clocks <==> LatestDefault(packets, q).Some?) &&
                     (q in clocks ==> LatestDefault(packets, q) == Some(clocks[q]))
  }

  ghost function MetadataOf(packet: seq<byte>): Metadata
    requires MetadataFrom(packet, NOTHING_KNOWN).Ok?
  {
    MetadataFrom(packet, NOTHING_KNOWN).value
  }

  lemma {:induction false} MetadataIsFields(packet: seq<byte>)
    requires MetadataFrom(packet, NOTHING_KNOWN).Ok?
    ensures var m := MetadataOf(packet);
            var fs := FieldsOf(packet);
            ParseFields(packet).Ok? && m.timestamp == LastOf(fs, 8) && m.sequence == LastOf(fs, 10) &&
            m.clock == OrZero(LastOf(fs, 58)) && m.ftrace == HasBundle(fs) && m.defaultClock == DefaultsOf(fs)
  {
    MetadataParses(packet, NOTHING_KNOWN);
    MetadataOfFields(packet, NOTHING_KNOWN);
    MetadataMeaning(FieldsOf(packet));
  }

  lemma {:induction false} TableGrows(clocks: ClockTable, before: seq<seq<byte>>, packet: seq<byte>)
    requires TableIs(clocks, before) && MetadataFrom(packet, NOTHING_KNOWN).Ok?
    ensures TableIs(LearnDefault(clocks, MetadataOf(packet)), before + [packet])
  {
    MetadataIsFields(packet);
    assert (before + [packet])[..|before|] == before;
  }

  lemma {:induction false} JudgedByHistory(clocks: ClockTable, before: seq<seq<byte>>, packet: seq<byte>, c: Cutoffs)
    requires MetadataFrom(packet, NOTHING_KNOWN).Ok?
    requires TableIs(clocks, before + [packet])
    ensures var m := MetadataOf(packet);
            TooOld(m, ClockOf(clocks, m), c) <==> Dropped(before + [packet], c)
  {
    MetadataIsFields(packet);
    var history := before + [packet];
    var m := MetadataOf(packet);
    assert history[|history| - 1] == packet;
    assert ClockOf(clocks, m) == EffectiveClock(history);
  }

  lemma {:induction false} AllTrimmedMeaning(fs: seq<Field>, cutoff: nat)
    requires forall i :: 0 <= i < |fs| ==> TrimField(fs[i], cutoff).Ok?
    ensures SameButTrimmed(fs, AllTrimmed(fs, cutoff), cutoff)
    decreases |fs|
  {
    if fs != [] {
      AllTrimmedMeaning(fs[1..], cutoff);
      BundleMeaning(fs[0].payload, cutoff);
      var gs := AllTrimmed(fs, cutoff);
      assert gs[1..] == AllTrimmed(fs[1..], cutoff);
      forall i | 1 <= i < |fs| ensures fs[i] == fs[1..][i - 1] && gs[i] == gs[1..][i - 1] {}
    }
  }

  lemma {:induction false} EveryFieldTrims(s: seq<byte>, cutoff: nat)
    requires TrimFields(s, cutoff).Ok?
    ensures ParseFields(s).Ok?
    ensures forall i :: 0 <= i < |ParseFields(s).value| ==> TrimField(ParseFields(s).value[i], cutoff).Ok?
    decreases |s|
  {
    if s != [] {
      SplitHead(s);
      EveryFieldTrims(s[|NextField(s).value.raw|..], cutoff);
    }
  }

  lemma {:induction false} KeptMeaning(packet: seq<byte>, cutoff: nat)
    requires TrimFields(packet, cutoff).Ok?
    ensures KeptAs(packet, TrimFields(packet, cutoff).value, cutoff)
    ensures |TrimFields(packet, cutoff).value| <= |packet|
  {
    FieldsMeaning(packet, cutoff);
    EveryFieldTrims(packet, cutoff);
    AllTrimmedMeaning(ParseFields(packet).value, cutoff);
  }

  // ----- The theorem

  /** A trace: every top-level field is a packet. */
  ghost predicate IsTrace(s: seq<byte>) {
    ParseFields(s).Ok? && AllPackets(ParseFields(s).value)
  }

  ghost predicate AllPackets(fs: seq<Field>) {
    forall i :: 0 <= i < |fs| ==> fs[i].key == PACKET_KEY
  }

  ghost function Payloads(fs: seq<Field>): seq<seq<byte>> {
    seq(|fs|, i requires 0 <= i < |fs| => fs[i].payload)
  }

  ghost function Packets(s: seq<byte>): seq<seq<byte>>
    requires ParseFields(s).Ok?
  {
    Payloads(ParseFields(s).value)
  }

  /** A packet field in front of a trace makes a trace with one more packet. */
  lemma {:induction false} TraceCons(f: Field, s: seq<byte>)
    requires f.raw != [] && f.key == PACKET_KEY && NextField(f.raw + s) == Ok(f) && IsTrace(s)
    ensures IsTrace(f.raw + s) && Packets(f.raw + s) == [f.payload] + Packets(s)
  {
    ParseCons(f, s);
    PacketsCons(f, ParseFields(s).value);
  }

  lemma {:induction false} PacketsCons(f: Field, fs: seq<Field>)
    requires f.key == PACKET_KEY && AllPackets(fs)
    ensures AllPackets([f] + fs) && Payloads([f] + fs) == [f.payload] + Payloads(fs)
  {
  }

  lemma {:induction false} TrimFromMeaning(s: seq<byte>, c: Cutoffs, clocks: ClockTable, before: seq<seq<byte>>)
    requires TrimFrom(s, c, clocks).Ok? && TableIs(clocks, before)
    ensures IsTrace(s) && IsTrace(TrimFrom(s, c, clocks).value)
    ensures Remains(before, Packets(s), Packets(TrimFrom(s, c, clocks).value), c)
    decreases |s|
  {
    if s != [] {
      PacketIsField(s);
      var p := ReadPacket(s).value;
      var fate := TrimOne(p.payload, c, clocks).value;
      var rest := s[|p.raw|..];
      TableGrows(clocks, before, p.payload);
      JudgedByHistory(fate.clocks, before, p.payload, c);
      TrimFromMeaning(rest, c, fate.clocks, before + [p.payload]);
      TraceCons(p, rest);
      var out := TrimFrom(rest, c, fate.clocks).value;
      OutputStep(before, p.payload, Packets(rest), out, fate, c);
    }
  }

  lemma {:induction false} RemainsDropped(
      before: seq<seq<byte>>, p: seq<byte>, ps: seq<seq<byte>>, qs: seq<seq<byte>>, c: Cutoffs)
    requires Dropped(before + [p], c) && Remains(before + [p], ps, qs, c)
    ensures Remains(before, [p] + ps, qs, c)
  {
    assert ([p] + ps)[1..] == ps;
  }

  lemma {:induction false} RemainsKept(
      before: seq<seq<byte>>, p: seq<byte>, ps: seq<seq<byte>>, q: seq<byte>, qs: seq<seq<byte>>, c: Cutoffs)
    requires !Dropped(before + [p], c) && Remains(before + [p], ps, qs, c) && KeptAs(p, q, c.boottime)
    ensures Remains(before, [p] + ps, [q] + qs, c)
  {
    assert ([p] + ps)[1..] == ps && ([q] + qs)[1..] == qs;
  }

  lemma {:induction false} PacketInFront(q: seq<byte>, out: seq<byte>)
    requires |q| < U64 && IsTrace(out)
    ensures IsTrace(Delimited(PACKET_KEY, q) + out)
    ensures Packets(Delimited(PACKET_KEY, q) + out) == [q] + Packets(out)
  {
    DelimitedReads(PACKET_KEY, q, out);
    TraceCons(Field(PACKET_KEY, 0, q, Delimited(PACKET_KEY, q)), out);
  }

  lemma {:induction false} OutputStep(
      before: seq<seq<byte>>, p: seq<byte>, ps: seq<seq<byte>>, out: seq<byte>, fate: Fate, c: Cutoffs)
    requires |p| < U64 && IsTrace(out) && Remains(before + [p], ps, Packets(out), c)
    requires fate.kept.None? <==> Dropped(before + [p], c)
    requires fate.kept.Some? ==> TrimFields(p, c.boottime) == Ok(fate.kept.value)
    ensures IsTrace(Output(fate) + out)
    ensures Remains(before, [p] + ps, Packets(Output(fate) + out), c)
  {
    match fate.kept
    case None =>
      assert [] + out == out;
      RemainsDropped(before, p, ps, Packets(out), c);
    case Some(q) =>
      KeptMeaning(p, c.boottime);
      PacketInFront(q, out);
      RemainsKept(before, p, ps, q, Packets(out), c);
  }

  /** Whenever trimming succeeds, the input is a trace and the output parses to its packets in
      order, minus exactly those below the cutoff of their effective clock, each with its bundles
      rid of exactly the events stamped below the cutoff. */
  lemma {:induction false} TrimmingPreservesMeaning(s: seq<byte>, c: Cutoffs)
    requires TrimTrace(s, c).Ok?
    ensures IsTrace(s) && IsTrace(TrimTrace(s, c).value)
    ensures Remains([], Packets(s), Packets(TrimTrace(s, c).value), c)
  {
    TrimFromMeaning(s, c, map[], []);
  }

  // ----- When trimming succeeds

  /** Each packet that follows `before` has supported fields and is either dropped or has bundles that
      can be trimmed. */
  ghost predicate AllTrim(before: seq<seq<byte>>, ps: seq<seq<byte>>, c: Cutoffs)
    decreases |ps|
  {
    ps == [] ||
    (ParseFields(ps[0]).Ok? && AllSupported(ParseFields(ps[0]).value) &&
     (Dropped(before + [ps[0]], c) || BundlesTrim(ParseFields(ps[0]).value)) &&
     AllTrim(before + [ps[0]], ps[1..], c))
  }

  /** A packet can be read exactly when the next field is one. */
  lemma {:induction false} ReadsExactly(s: seq<byte>)
    ensures ReadPacket(s).Ok? <==> NextField(s).Ok? && NextField(s).value.key == PACKET_KEY
  {
    if ReadPacket(s).Ok? {
      PacketIsField(s);
    } else if Decode(s).Ok? {
      DecodeFacts(s, []);
    }
  }

  lemma {:induction false} PacketTrimsExactly(clocks: ClockTable, before: seq<seq<byte>>, p: seq<byte>, c: Cutoffs)
    requires TableIs(clocks, before)
    ensures TrimOne(p, c, clocks).Ok? <==>
            ParseFields(p).Ok? && AllSupported(ParseFields(p).value) &&
            (Dropped(before + [p], c) || BundlesTrim(ParseFields(p).value))
  {
    MetadataExactly(p);
    FieldsExactly(p, c.boottime);
    if MetadataFrom(p, NOTHING_KNOWN).Ok? {
      TableGrows(clocks, before, p);
      JudgedByHistory(LearnDefault(clocks, MetadataOf(p)), before, p, c);
    }
  }

  lemma {:induction false} TraceHead(s: seq<byte>)
    requires s != [] && ReadPacket(s).Ok?
    ensures var p := ReadPacket(s).value;
            |p.raw| <= |s| &&
            var rest := s[|p.raw|..];
            |rest| < |s| && (IsTrace(s) <==> IsTrace(rest)) &&
            (IsTrace(s) ==> Packets(s) == [p.payload] + Packets(rest))
  {
    PacketIsField(s);
    var p := ReadPacket(s).value;
    var rest := s[|p.raw|..];
    if IsTrace(rest) {
      TraceCons(p, rest);
    }
    if ParseFields(s).Ok? {
      var fs := ParseFields(rest).value;
      assert ParseFields(s).value == [p] + fs;
      assert forall i :: 0 <= i < |fs| ==> ([p] + fs)[i + 1] == fs[i];
    }
  }

  lemma {:induction false} AllTrimCons(before: seq<seq<byte>>, p: seq<byte>, ps: seq<seq<byte>>, c: Cutoffs)
    ensures AllTrim(before, [p] + ps, c) <==>
            ParseFields(p).Ok? && AllSupported(ParseFields(p).value) &&
            (Dropped(before + [p], c) || BundlesTrim(ParseFields(p).value)) && AllTrim(before + [p], ps, c)
  {
    assert ([p] + ps)[1..] == ps;
  }

  lemma {:induction false} HeadExactly(s: seq<byte>, c: Cutoffs, clocks: ClockTable)
    requires s != [] && ReadPacket(s).Ok?
    ensures var p := ReadPacket(s).value;
            |p.raw| <= |s| &&
            var fate := TrimOne(p.payload, c, clocks);
            (TrimFrom(s, c, clocks).Ok? <==> fate.Ok? && TrimFrom(s[|p.raw|..], c, fate.value.clocks).Ok?)
  {
    PacketIsField(s);
  }

  lemma {:induction false} FateOfTable(clocks: ClockTable, before: seq<seq<byte>>, p: seq<byte>, c: Cutoffs)
    requires TableIs(clocks, before) && TrimOne(p, c, clocks).Ok?
    ensures TableIs(TrimOne(p, c, clocks).value.clocks, before + [p])
  {
    TableGrows(clocks, before, p);
  }

  lemma {:induction false} TrimFromExactly(s: seq<byte>, c: Cutoffs, clocks: ClockTable, before: seq<seq<byte>>)
    requires TableIs(clocks, before)
    ensures TrimFrom(s, c, clocks).Ok? <==> IsTrace(s) && AllTrim(before, Packets(s), c)
    decreases |s|
  {
    if s != [] {
      ReadsExactly(s);
      if !ReadPacket(s).Ok? {
        NotATrace(s);
      } else {
        var p := ReadPacket(s).value;
        TraceHead(s);
        HeadExactly(s, c, clocks);
        PacketTrimsExactly(clocks, before, p.payload, c);
        if TrimOne(p.payload, c, clocks).Ok? {
          FateOfTable(clocks, before, p.payload, c);
          TrimFromExactly(s[|p.raw|..], c, TrimOne(p.payload, c, clocks).value.clocks, before + [p.payload]);
        }
        if IsTrace(s) { AllTrimCons(before, p.payload, Packets(s[|p.raw|..]), c); }
      }
    }
  }

  lemma {:induction false} NotATrace(s: seq<byte>)
    requires s != [] && !(NextField(s).Ok? && NextField(s).value.key == PACKET_KEY)
    ensures !IsTrace(s)
  {
    if ParseFields(s).Ok? { assert ParseFields(s).value[0] == NextField(s).value; }
  }

  /** A trace can be trimmed if and only if every top-level field is a packet, every packet parses and
      has only supported fields, and every packet that is not dropped has bundles that parse, are not
      compressed and hold events that parse. */
  lemma {:induction false} TrimmingSucceedsExactly(s: seq<byte>, c: Cutoffs)
    ensures TrimTrace(s, c).Ok? <==> IsTrace(s) && AllTrim([], Packets(s), c)
  {
    TrimFromExactly(s, c, map[], []);
  }
}
