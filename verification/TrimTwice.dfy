/** Trimming a trimmed trace again.  A packet may owe its clock to a default that a dropped packet
    announced; without it the packet is judged by another clock, so that the second pass may drop what
    the first one kept. */
module TrimTwice {
  import opened Bits
  import opened Wrappers
  import opened Wire
  import opened Trim
  import opened TrimPacket
  import opened TrimStream
  import opened ProtoWriter

  // ----- The packets that are kept

  /** The packets of `ps` that are kept after the packets `before`. */
  ghost function KeptPackets(before: seq<seq<byte>>, ps: seq<seq<byte>>, c: Cutoffs): seq<seq<byte>>
    decreases |ps|
  {
    if ps == [] then []
    else (if Dropped(before + [ps[0]], c) then [] else [ps[0]]) + KeptPackets(before + [ps[0]], ps[1..], c)
  }

  /** None of the packets `ps` is dropped after the packets `before`. */
  ghost predicate NoneDropped(before: seq<seq<byte>>, ps: seq<seq<byte>>, c: Cutoffs)
    decreases |ps|
  {
    ps == [] || (!Dropped(before + [ps[0]], c) && NoneDropped(before + [ps[0]], ps[1..], c))
  }

  // ----- What a kept packet looks like to the second pass

  lemma {:induction false} TrimmedKeepsMetadata(p: seq<byte>, cutoff: nat)
    requires TrimFields(p, cutoff).Ok? && MetadataFrom(p, NOTHING_KNOWN).Ok?
    ensures var q := TrimFields(p, cutoff).value;
            |q| <= |p| && MetadataFrom(q, NOTHING_KNOWN) == MetadataFrom(p, NOTHING_KNOWN) &&
            TrimFields(q, cutoff) == Ok(q)
  {
    FieldsMeaning(p, cutoff);
    MetadataOfFields(p, NOTHING_KNOWN);
    MetadataOfFields(TrimFields(p, cutoff).value, NOTHING_KNOWN);
    MetadataSurvives(ParseFields(p).value, cutoff, NOTHING_KNOWN);
  }

  /** A written packet is read back in front of anything. */
  lemma {:induction false} WrittenPacketReads(q: seq<byte>, out: seq<byte>)
    requires |q| < U64
    ensures var f := Field(PACKET_KEY, 0, q, Delimited(PACKET_KEY, q));
            ReadPacket(f.raw + out) == Ok(f) && (f.raw + out)[|f.raw|..] == out
  {
    DelimitedReads(PACKET_KEY, q, out);
    ReadsExactly(Delimited(PACKET_KEY, q) + out);
    PacketIsField(Delimited(PACKET_KEY, q) + out);
  }

  /** The output packet is no longer than the field it was read from. */
  lemma {:induction false} OutputIsShorter(s: seq<byte>, c: Cutoffs, clocks: ClockTable)
    requires ReadPacket(s).Ok? && TrimOne(ReadPacket(s).value.payload, c, clocks).Ok?
    ensures var p := ReadPacket(s).value;
            |Output(TrimOne(p.payload, c, clocks).value)| <= |p.raw| <= |s|
  {
    PacketIsField(s);
    var p := ReadPacket(s).value;
    var fate := TrimOne(p.payload, c, clocks).value;
    if fate.kept.Some? {
      KeptIsTrimmed(p.payload, c, clocks);
      FieldsMeaning(p.payload, c.boottime);
      PacketIsShortest(p);
      ShorterDelimited(PACKET_KEY, fate.kept.value, p.payload);
    }
  }

  lemma {:induction false} KeptIsTrimmed(p: seq<byte>, c: Cutoffs, clocks: ClockTable)
    requires TrimOne(p, c, clocks).Ok? && TrimOne(p, c, clocks).value.kept.Some?
    ensures TrimFields(p, c.boottime) == Ok(TrimOne(p, c, clocks).value.kept.value)
  {
  }

  lemma {:induction false} PacketIsShortest(f: Field)
    requires Standalone(f) && f.key == PACKET_KEY
    ensures |Delimited(PACKET_KEY, f.payload)| <= |f.raw|
  {
    assert f.WireType() == 2;
    DelimitedIsShortest(f);
  }

  lemma {:induction false} ShorterDelimited(key: nat, q: seq<byte>, p: seq<byte>)
    requires |q| <= |p|
    ensures |Delimited(key, q)| <= |Delimited(key, p)|
  {
    EncodeMonotone(|q|, |p|);
  }

  lemma {:induction false} TrimmedIsShorter(s: seq<byte>, c: Cutoffs, clocks: ClockTable)
    requires TrimFrom(s, c, clocks).Ok?
    ensures |TrimFrom(s, c, clocks).value| <= |s|
    decreases |s|
  {
    if s != [] {
      PacketIsField(s);
      var p := ReadPacket(s).value;
      OutputIsShorter(s, c, clocks);
      TrimmedIsShorter(s[|p.raw|..], c, TrimOne(p.payload, c, clocks).value.clocks);
    }
  }

  // ----- The second pass, packet by packet

  /** How the second pass treats a packet that the first one kept. */
  lemma {:induction false} SecondVerdict(p: seq<byte>, c: Cutoffs, clocks: ClockTable, before: seq<seq<byte>>)
    requires TableIs(clocks, before) && MetadataFrom(p, NOTHING_KNOWN).Ok? && TrimFields(p, c.boottime).Ok?
    ensures var q := TrimFields(p, c.boottime).value;
            var learned := LearnDefault(clocks, MetadataOf(p));
            TableIs(learned, before + [p]) &&
            TrimOne(q, c, clocks) == Ok(Fate(if Dropped(before + [p], c) then None else Some(q), learned))
  {
    TrimmedKeepsMetadata(p, c.boottime);
    TableGrows(clocks, before, p);
    JudgedByHistory(LearnDefault(clocks, MetadataOf(p)), before, p, c);
  }

  /** One packet of the output in front of the rest. */
  lemma {:induction false} SecondStep(q: seq<byte>, rest: seq<byte>, c: Cutoffs, clocks: ClockTable, fate: Fate)
    requires |q| < U64 && TrimOne(q, c, clocks) == Ok(fate) && (fate.kept.Some? ==> fate.kept == Some(q))
    requires TrimFrom(rest, c, fate.clocks).Ok?
    ensures var out := Delimited(PACKET_KEY, q) + rest;
            TrimFrom(out, c, clocks).Ok? &&
            (TrimFrom(out, c, clocks) == Ok(out) <==> fate.kept.Some? && TrimFrom(rest, c, fate.clocks) == Ok(rest))
  {
    var head := Delimited(PACKET_KEY, q);
    var again := TrimFrom(rest, c, fate.clocks).value;
    WrittenPacketReads(q, rest);
    TrimmedIsShorter(rest, c, fate.clocks);
    assert TrimFrom(head + rest, c, clocks) == Ok(Output(fate) + again);
    if fate.kept.Some? {
      SameTail(head, again, rest);
    } else {
      assert |[] + again| < |head + rest|;
    }
  }

  lemma {:induction false} SameTail(head: seq<byte>, a: seq<byte>, b: seq<byte>)
    ensures head + a == head + b <==> a == b
  {
    assert (head + a)[|head|..] == a && (head + b)[|head|..] == b;
  }

  lemma {:induction false} KeptCons(before: seq<seq<byte>>, p: seq<byte>, ps: seq<seq<byte>>, c: Cutoffs)
    ensures KeptPackets(before, [p] + ps, c) ==
            (if Dropped(before + [p], c) then [] else [p]) + KeptPackets(before + [p], ps, c)
  {
    assert ([p] + ps)[1..] == ps;
  }

  lemma {:induction false} NoneDroppedCons(before: seq<seq<byte>>, p: seq<byte>, ps: seq<seq<byte>>, c: Cutoffs)
    ensures NoneDropped(before, [p] + ps, c) <==> !Dropped(before + [p], c) && NoneDropped(before + [p], ps, c)
  {
    assert ([p] + ps)[1..] == ps;
  }

  /** What the second pass makes of the output behind the packets `kept`. */
  ghost predicate TwiceRight(out: seq<byte>, c: Cutoffs, again: ClockTable, kept: seq<seq<byte>>, ps: seq<seq<byte>>) {
    TrimFrom(out, c, again).Ok? && (TrimFrom(out, c, again) == Ok(out) <==> NoneDropped(kept, ps, c))
  }

  /** A packet that the first pass kept, in front of output that the second pass treats right. */
  lemma {:induction false} KeptTwice(
      p: seq<byte>, out: seq<byte>, c: Cutoffs, again: ClockTable, kept: seq<seq<byte>>, ps: seq<seq<byte>>)
    requires |p| < U64 && TableIs(again, kept) && MetadataFrom(p, NOTHING_KNOWN).Ok? && TrimFields(p, c.boottime).Ok?
    requires TwiceRight(out, c, LearnDefault(again, MetadataOf(p)), kept + [p], ps)
    ensures TwiceRight(Delimited(PACKET_KEY, TrimFields(p, c.boottime).value) + out, c, again, kept, [p] + ps)
  {
    var q := TrimFields(p, c.boottime).value;
    var learned := LearnDefault(again, MetadataOf(p));
    TrimmedKeepsMetadata(p, c.boottime);
    SecondVerdict(p, c, again, kept);
    SecondStep(q, out, c, again, Fate(if Dropped(kept + [p], c) then None else Some(q), learned));
    NoneDroppedCons(kept, p, ps, c);
  }

  /** The first packet of a trace under the first pass: what it leaves and what becomes of it. */
  lemma {:induction false} FirstPass(s: seq<byte>, c: Cutoffs, clocks: ClockTable, all: seq<seq<byte>>)
    requires s != [] && TrimFrom(s, c, clocks).Ok? && TableIs(clocks, all)
    ensures ReadPacket(s).Ok?
    ensures var p := ReadPacket(s).value;
            |p.payload| < U64 && |p.raw| <= |s| && |s[|p.raw|..]| < |s| &&
            MetadataFrom(p.payload, NOTHING_KNOWN).Ok? && TrimOne(p.payload, c, clocks).Ok? &&
            var fate := TrimOne(p.payload, c, clocks).value;
            TableIs(fate.clocks, all + [p.payload]) && TrimFrom(s[|p.raw|..], c, fate.clocks).Ok? &&
            TrimFrom(s, c, clocks).value == Output(fate) + TrimFrom(s[|p.raw|..], c, fate.clocks).value &&
            (fate.kept.None? <==> Dropped(all + [p.payload], c)) &&
            (fate.kept.Some? ==> TrimFields(p.payload, c.boottime) == Ok(fate.kept.value))
  {
    PacketIsField(s);
    var p := ReadPacket(s).value;
    FateOfTable(clocks, all, p.payload, c);
    JudgedByHistory(TrimOne(p.payload, c, clocks).value.clocks, all, p.payload, c);
  }

  /** The first pass has read the packets `all`, the second one the packets `kept`. */
  lemma {:induction false} TwiceFrom(
      s: seq<byte>, c: Cutoffs, clocks: ClockTable, all: seq<seq<byte>>, again: ClockTable, kept: seq<seq<byte>>)
    requires TrimFrom(s, c, clocks).Ok? && TableIs(clocks, all) && TableIs(again, kept)
    ensures IsTrace(s) && TwiceRight(TrimFrom(s, c, clocks).value, c, again, kept, KeptPackets(all, Packets(s), c))
    decreases |s|
  {
    TrimFromExactly(s, c, clocks, all);
    if s != [] {
      FirstPass(s, c, clocks, all);
      TraceHead(s);
      var p := ReadPacket(s).value;
      var rest, fate := s[|p.raw|..], TrimOne(p.payload, c, clocks).value;
      var out := TrimFrom(rest, c, fate.clocks).value;
      KeptCons(all, p.payload, Packets(rest), c);
      var ps := KeptPackets(all + [p.payload], Packets(rest), c);
      if fate.kept.None? {
        TwiceFrom(rest, c, fate.clocks, all + [p.payload], again, kept);
        assert [] + out == out && [] + ps == ps;
      } else {
        SecondVerdict(p.payload, c, again, kept);
        var learned := LearnDefault(again, MetadataOf(p.payload));
        TwiceFrom(rest, c, fate.clocks, all + [p.payload], learned, kept + [p.payload]);
        KeptTwice(p.payload, out, c, again, kept, ps);
      }
    }
  }

  /** A trimmed trace can always be trimmed again, and the second pass changes nothing if and only if
      none of the packets that the first one kept is below the cutoff of its effective clock once the
      defaults of the dropped packets are gone. */
  lemma {:induction false} TrimmingTwiceExactly(s: seq<byte>, c: Cutoffs)
    requires TrimTrace(s, c).Ok?
    ensures IsTrace(s)
    ensures var out := TrimTrace(s, c).value;
            TrimTrace(out, c).Ok? &&
            (TrimTrace(out, c) == Ok(out) <==> NoneDropped([], KeptPackets([], Packets(s), c), c))
  {
    TwiceFrom(s, c, map[], [], map[], []);
  }

  // ----- A trace that does not stay the same

  /** Sequence 1 announces the monotonic clock as its default, in a packet stamped 5. */
  function Announcement(): seq<Written> {
    [Uint(10, 1), Text(59, ClockField().Bytes()), Uint(8, 5)]
  }

  /** A packet of sequence 1 stamped 12. */
  function Follower(): seq<Written> {
    [Uint(10, 1), Uint(8, 12)]
  }

  function TwoPackets(): seq<Written> {
    [Text(1, AllBytes(Announcement())), Text(1, AllBytes(Follower()))]
  }

  const CUTOFFS := Cutoffs(100, 10)

  /** The clock default inside the announcement. */
  function ClockField(): Written {
    Uint(58, CLOCK_MONOTONIC)
  }

  lemma {:induction false} SmallEncodings()
    ensures |ClockField().Bytes()| == 3 && |AllBytes(Announcement())| == 10 && |AllBytes(Follower())| == 4
  {
    assert Encode(464) == [208, 3] && Encode(474) == [218, 3];
    var ws, vs := Announcement(), Follower();
    assert AllBytes(ws) == ws[0].Bytes() + (ws[1].Bytes() + (ws[2].Bytes() + [])) by {
      assert ws[1..] == [ws[1], ws[2]] && ws[1..][1..] == [ws[2]] && [ws[2]][1..] == [];
    }
    assert AllBytes(vs) == vs[0].Bytes() + (vs[1].Bytes() + []) by {
      assert vs[1..] == [vs[1]] && [vs[1]][1..] == [];
    }
  }

  lemma {:induction false} LastOfMore(fs: seq<Field>, f: Field, number: nat)
    ensures LastOf(fs + [f], number) == if IsVarint(f, number) then Some(f.value) else LastOf(fs, number)
    ensures DefaultsOf(fs + [f]) ==
            if IsDefaults(f) then (match LastVarint(f.payload, 58) case Ok(x) => x case Err(_) => None)
            else DefaultsOf(fs)
  {
    assert (fs + [f])[..|fs + [f]| - 1] == fs;
  }

  // Fields written one, two or three at a time.

  lemma {:induction false} ReadsCons(w: Written, ws: seq<Written>)
    ensures AllReadAs([w] + ws) == [w.ReadsAs()] + AllReadAs(ws)
    ensures AllBytes([w] + ws) == w.Bytes() + AllBytes(ws)
  {
    assert ([w] + ws)[1..] == ws;
  }

  lemma {:induction false} ReadOne(w: Written)
    requires w.Representable() && w.Key() != 0
    ensures ParseFields(w.Bytes()) == Ok([] + [w.ReadsAs()])
  {
    ReadsCons(w, []);
    assert [w] == [w] + [] && w.Bytes() + [] == w.Bytes();
    ParseWhatWasWritten([w]);
    assert [w.ReadsAs()] + [] == [] + [w.ReadsAs()];
  }

  lemma {:induction false} ReadTwo(w: Written, v: Written)
    requires w.Representable() && w.Key() != 0 && v.Representable() && v.Key() != 0
    ensures ParseFields(AllBytes([w, v])) == Ok([] + [w.ReadsAs()] + [v.ReadsAs()])
  {
    var f, g := w.ReadsAs(), v.ReadsAs();
    ReadsCons(v, []);
    ReadsCons(w, [v]);
    assert [w, v] == [w] + [v] && [v] == [v] + [];
    ParseWhatWasWritten([w, v]);
    assert [f] + ([g] + []) == [] + [f] + [g];
  }

  lemma {:induction false} ReadThree(w: Written, v: Written, u: Written)
    requires w.Representable() && w.Key() != 0 && v.Representable() && v.Key() != 0
    requires u.Representable() && u.Key() != 0
    ensures ParseFields(AllBytes([w, v, u])) == Ok([] + [w.ReadsAs()] + [v.ReadsAs()] + [u.ReadsAs()])
  {
    var f, g, h := w.ReadsAs(), v.ReadsAs(), u.ReadsAs();
    ReadsCons(u, []);
    ReadsCons(v, [u]);
    ReadsCons(w, [v, u]);
    assert [w, v, u] == [w] + [v, u] && [v, u] == [v] + [u] && [u] == [u] + [];
    ParseWhatWasWritten([w, v, u]);
    assert [f] + ([g] + ([h] + [])) == [] + [f] + [g] + [h];
  }

  lemma {:induction false} KindSurvives(w: Written)
    requires w.Representable()
    ensures w.ReadsAs().Number() == w.number
    ensures w.ReadsAs().WireType() == match w case Uint(_, _) => 0 case Fixed64(_, _) => 1 case Text(_, _) => 2
  {
    NumberSurvives(w);
  }

  lemma {:induction false} ClockFieldReads()
    ensures ParseFields(ClockField().Bytes()).Ok?
    ensures LastVarint(ClockField().Bytes(), 58) == Ok(Some(CLOCK_MONOTONIC))
  {
    var w := ClockField();
    ReadOne(w);
    KindSurvives(w);
    LastOfMore([], w.ReadsAs(), 58);
  }

  lemma {:induction false} LastOfThree(f: Field, g: Field, h: Field, number: nat)
    requires !IsDefaults(f) && IsDefaults(g) && !IsDefaults(h) && LastVarint(g.payload, 58).Ok?
    ensures var fs := [] + [f] + [g] + [h];
            LastOf(fs, number) ==
            (if IsVarint(h, number) then Some(h.value)
             else if IsVarint(g, number) then Some(g.value)
             else if IsVarint(f, number) then Some(f.value) else None) &&
            DefaultsOf(fs) == LastVarint(g.payload, 58).value
  {
    LastOfMore([], f, number);
    LastOfMore([] + [f], g, number);
    LastOfMore([] + [f] + [g], h, number);
  }

  lemma {:induction false} LastOfTwo(f: Field, g: Field, number: nat)
    requires !IsDefaults(f) && !IsDefaults(g)
    ensures var fs := [] + [f] + [g];
            LastOf(fs, number) ==
            (if IsVarint(g, number) then Some(g.value) else if IsVarint(f, number) then Some(f.value) else None) &&
            DefaultsOf(fs) == None
  {
    LastOfMore([], f, number);
    LastOfMore([] + [f], g, number);
  }

  /** Fields that trimming does not look into. */
  lemma {:induction false} PlainFields(f: Field, g: Field)
    requires f.Number() !in {1, 50, 59, 133} && g.Number() !in {1, 50, 59, 133}
    ensures var fs := [] + [f] + [g]; !HasBundle(fs) && AllSupported(fs) && BundlesTrim(fs)
  {
    var fs := [] + [f] + [g];
    assert forall i :: 0 <= i < |fs| ==> fs[i] == f || fs[i] == g;
  }

  lemma {:induction false} PlainAroundDefaults(f: Field, g: Field, h: Field)
    requires f.Number() !in {1, 50, 59, 133} && h.Number() !in {1, 50, 59, 133}
    requires g.Number() == 59 && ParseFields(g.payload).Ok?
    ensures var fs := [] + [f] + [g] + [h]; !HasBundle(fs) && AllSupported(fs)
  {
    var fs := [] + [f] + [g] + [h];
    assert forall i :: 0 <= i < |fs| ==> fs[i] == f || fs[i] == g || fs[i] == h;
  }

  lemma {:induction false} AnnouncementFields()
    ensures ParseFields(AllBytes(Announcement())).Ok?
    ensures var fs := FieldsOf(AllBytes(Announcement()));
            LastOf(fs, 8) == Some(5) && LastOf(fs, 10) == Some(1) && LastOf(fs, 58) == None &&
            DefaultsOf(fs) == Some(CLOCK_MONOTONIC) && !HasBundle(fs) && AllSupported(fs)
  {
    var w, v, u := Uint(10, 1), Text(59, ClockField().Bytes()), Uint(8, 5);
    SmallEncodings();
    ReadThree(w, v, u);
    ClockFieldReads();
    KindSurvives(w);
    KindSurvives(v);
    KindSurvives(u);
    PlainAroundDefaults(w.ReadsAs(), v.ReadsAs(), u.ReadsAs());
    LastOfThree(w.ReadsAs(), v.ReadsAs(), u.ReadsAs(), 8);
    LastOfThree(w.ReadsAs(), v.ReadsAs(), u.ReadsAs(), 10);
    LastOfThree(w.ReadsAs(), v.ReadsAs(), u.ReadsAs(), 58);
  }

  lemma {:induction false} FollowerFields()
    ensures ParseFields(AllBytes(Follower())).Ok?
    ensures var fs := FieldsOf(AllBytes(Follower()));
            LastOf(fs, 8) == Some(12) && LastOf(fs, 10) == Some(1) && LastOf(fs, 58) == None &&
            DefaultsOf(fs) == None && !HasBundle(fs) && AllSupported(fs) && BundlesTrim(fs)
  {
    var w, v := Uint(10, 1), Uint(8, 12);
    ReadTwo(w, v);
    KindSurvives(w);
    KindSurvives(v);
    PlainFields(w.ReadsAs(), v.ReadsAs());
    LastOfTwo(w.ReadsAs(), v.ReadsAs(), 8);
    LastOfTwo(w.ReadsAs(), v.ReadsAs(), 10);
    LastOfTwo(w.ReadsAs(), v.ReadsAs(), 58);
  }

  /** The announcement is dropped; the follower is kept behind it and dropped on its own. */
  lemma {:induction false} Verdicts(a: seq<byte>, b: seq<byte>)
    requires a == AllBytes(Announcement()) && b == AllBytes(Follower())
    ensures Dropped([a], CUTOFFS) && !Dropped([a, b], CUTOFFS) && Dropped([b], CUTOFFS)
  {
    AnnouncementFields();
    FollowerFields();
    assert [a][..0] == [] && [b][..0] == [] && [a, b][..1] == [a];
    assert LatestDefault([a], 1) == Some(CLOCK_MONOTONIC);
    assert LatestDefault([a, b], 1) == LatestDefault([a], 1);
    assert LatestDefault([b], 1) == LatestDefault([], 1) == None;
  }

  /** With a boottime cutoff of 100 and a monotonic one of 10 the first pass drops the announcement and
      keeps the follower, which was made on the monotonic clock; the second pass no longer knows this
      clock and drops the follower too. */
  lemma {:induction false} TrimmingTwiceMayDropMore()
    ensures var s := AllBytes(TwoPackets());
            TrimTrace(s, CUTOFFS).Ok? && TrimTrace(TrimTrace(s, CUTOFFS).value, CUTOFFS).Ok? &&
            TrimTrace(TrimTrace(s, CUTOFFS).value, CUTOFFS) != TrimTrace(s, CUTOFFS)
  {
    var s, a, b := AllBytes(TwoPackets()), AllBytes(Announcement()), AllBytes(Follower());
    TwoPacketsParse();
    AnnouncementFields();
    FollowerFields();
    Verdicts(a, b);
    assert [] + [a] == [a] && [a] + [b] == [a, b] && [] + [b] == [b] && [a, b] == [a] + [b] && [b] == [b] + [];
    AllTrimCons([], a, [b], CUTOFFS);
    AllTrimCons([a], b, [], CUTOFFS);
    TrimmingSucceedsExactly(s, CUTOFFS);
    KeptCons([], a, [b], CUTOFFS);
    KeptCons([a], b, [], CUTOFFS);
    NoneDroppedCons([], b, [], CUTOFFS);
    TrimmingTwiceExactly(s, CUTOFFS);
  }

  lemma {:induction false} TwoPacketsParse()
    ensures var s := AllBytes(TwoPackets());
            IsTrace(s) && Packets(s) == [AllBytes(Announcement()), AllBytes(Follower())]
  {
    SmallEncodings();
    ReadTwo(Text(1, AllBytes(Announcement())), Text(1, AllBytes(Follower())));
  }
}
