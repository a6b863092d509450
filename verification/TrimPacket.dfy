/** Trimming one packet: the metadata that decides its fate, and the rewriting of its fields. */
module TrimPacket {
  import opened Wrappers
  import opened Bits
  import opened Wire
  import opened Trim

  // ----- Metadata

  /** What packet_metadata collects; a clock of zero means that none was given. */
  datatype Metadata = Metadata(
    timestamp: Option<nat>, clock: nat, sequence: Option<nat>, ftrace: bool, defaultClock: Option<nat>)

  const NOTHING_KNOWN := Metadata(None, 0, None, false, None)

  function Learn(m: Metadata, f: Field): Result<Metadata> {
    if IsVarint(f, 8) then Ok(m.(timestamp := Some(f.value)))
    else if IsVarint(f, 58) then Ok(m.(clock := f.value))
    else if IsVarint(f, 10) then Ok(m.(sequence := Some(f.value)))
    else if IsBundle(f) then Ok(m.(ftrace := true))
    else if IsDefaults(f) then
      var clock :- LastVarint(f.payload, 58);
      Ok(m.(defaultClock := clock))
    else if f.Number() == 50 || f.Number() == 133 then Err(UnsupportedPacket)
    else Ok(m)
  }

  predicate IsDefaults(f: Field) {
    f.Number() == 59 && f.WireType() == 2
  }

  /** packet_metadata, from a point in the packet on. */
  function MetadataFrom(s: seq<byte>, m: Metadata): Result<Metadata>
    decreases |s|
  {
    if s == [] then Ok(m)
    else
      var f :- NextField(s);
      NextFieldFacts(s, []);
      var m' :- Learn(m, f);
      MetadataFrom(s[|f.raw|..], m')
  }

  function LearnAll(fs: seq<Field>, m: Metadata): Result<Metadata> {
    if fs == [] then Ok(m)
    else
      var m' :- LearnAll(fs[..|fs| - 1], m);
      Learn(m', fs[|fs| - 1])
  }

  /** Metadata depends on the parsed fields only. */
  lemma {:induction false} MetadataOfFields(s: seq<byte>, m: Metadata)
    requires ParseFields(s).Ok?
    ensures MetadataFrom(s, m) == LearnAll(ParseFields(s).value, m)
    decreases |s|
  {
    if s != [] {
      var f, rest := ParseHead(s);
      NextFieldFacts(s, []);
      assert s[|f.raw|..] == rest;
      LearnFirst(f, ParseFields(rest).value, m);
      if Learn(m, f).Ok? {
        MetadataOfFields(rest, Learn(m, f).value);
      }
    }
  }

  lemma {:induction false} LearnFirst(f: Field, fs: seq<Field>, m: Metadata)
    ensures LearnAll([f] + fs, m) == match Learn(m, f) case Ok(m') => LearnAll(fs, m') case Err(e) => Err(e)
  {
    if fs == [] {
      assert [f] + fs == [f] && [f][..0] == [];
    } else {
      LearnFirst(f, fs[..|fs| - 1], m);
      assert ([f] + fs)[..|fs|] == [f] + fs[..|fs| - 1];
    }
  }

  lemma {:induction false} MetadataParses(s: seq<byte>, m: Metadata)
    requires MetadataFrom(s, m).Ok?
    ensures ParseFields(s).Ok?
    decreases |s|
  {
    if s != [] {
      var f := NextField(s).value;
      NextFieldFacts(s, []);
      MetadataParses(s[|f.raw|..], Learn(m, f).value);
    }
  }

  /** What the metadata means: each number is the last one written, whatever the order. */
  ghost function DefaultsOf(fs: seq<Field>): Option<nat> {
    if fs == [] then None
    else
      var last := fs[|fs| - 1];
      if IsDefaults(last) then
        match LastVarint(last.payload, 58) case Ok(c) => c case Err(_) => None
      else DefaultsOf(fs[..|fs| - 1])
  }

  ghost predicate HasBundle(fs: seq<Field>) {
    exists i :: 0 <= i < |fs| && IsBundle(fs[i])
  }

  lemma {:induction false} MetadataMeaning(fs: seq<Field>)
    requires LearnAll(fs, NOTHING_KNOWN).Ok?
    ensures var m := LearnAll(fs, NOTHING_KNOWN).value;
            m.timestamp == LastOf(fs, 8) && m.sequence == LastOf(fs, 10) &&
            m.clock == (match LastOf(fs, 58) case Some(c) => c case None => 0) &&
            m.ftrace == HasBundle(fs) && m.defaultClock == DefaultsOf(fs)
    ensures forall i :: 0 <= i < |fs| ==> fs[i].Number() != 50 && fs[i].Number() != 133
  {
    if fs != [] {
      var front, last := fs[..|fs| - 1], fs[|fs| - 1];
      MetadataMeaning(front);
      assert forall i :: 0 <= i < |front| ==> front[i] == fs[i];
      assert HasBundle(fs) <==> HasBundle(front) || IsBundle(last);
    }
  }

  /** What packet_metadata accepts: no packet of the two kinds it does not support, and defaults that
      parse. */
  ghost predicate Supported(f: Field) {
    f.Number() != 50 && f.Number() != 133 && (IsDefaults(f) ==> ParseFields(f.payload).Ok?)
  }

  ghost predicate AllSupported(fs: seq<Field>) {
    forall i :: 0 <= i < |fs| ==> Supported(fs[i])
  }

  lemma {:induction false} LearnsExactly(fs: seq<Field>, m: Metadata)
    ensures LearnAll(fs, m).Ok? <==> AllSupported(fs)
  {
    if fs != [] {
      var front, last := fs[..|fs| - 1], fs[|fs| - 1];
      LearnsExactly(front, m);
      assert forall i :: 0 <= i < |front| ==> front[i] == fs[i];
      assert AllSupported(fs) <==> AllSupported(front) && Supported(last);
    }
  }

  /** A packet has metadata exactly when it parses and all its fields are supported. */
  lemma {:induction false} MetadataExactly(s: seq<byte>)
    ensures MetadataFrom(s, NOTHING_KNOWN).Ok? <==> ParseFields(s).Ok? && AllSupported(ParseFields(s).value)
  {
    if MetadataFrom(s, NOTHING_KNOWN).Ok? { MetadataParses(s, NOTHING_KNOWN); }
    if ParseFields(s).Ok? {
      MetadataOfFields(s, NOTHING_KNOWN);
      LearnsExactly(ParseFields(s).value, NOTHING_KNOWN);
    }
  }

  // ----- Rewriting

  /** The bytes one field of a kept packet leaves in the output: a bundle is trimmed and gets a
      fresh key and length, every other field is copied. */
  function TrimField(f: Field, cutoff: nat): Result<seq<byte>> {
    if IsBundle(f) then
      var bundle :- TrimBundle(f.payload, cutoff);
      Ok(Delimited(f.key, bundle))
    else Ok(f.raw)
  }

  function Delimited(key: nat, payload: seq<byte>): (r: seq<byte>)
    ensures r != []
  {
    Encode(key) + Encode(|payload|) + payload
  }

  /** The copying loop of trim_packet. */
  function TrimFields(s: seq<byte>, cutoff: nat): Result<seq<byte>>
    decreases |s|
  {
    if s == [] then Ok([])
    else
      var f :- NextField(s);
      NextFieldFacts(s, []);
      var piece :- TrimField(f, cutoff);
      var rest :- TrimFields(s[|f.raw|..], cutoff);
      Ok(piece + rest)
  }

  /** The same field with a trimmed bundle inside. */
  ghost function Trimmed(f: Field, cutoff: nat): Field {
    match TrimBundle(f.payload, cutoff)
    case Ok(bundle) => if IsBundle(f) then Field(f.key, 0, bundle, Delimited(f.key, bundle)) else f
    case Err(_) => f
  }

  ghost function AllTrimmed(fs: seq<Field>, cutoff: nat): seq<Field> {
    if fs == [] then [] else [Trimmed(fs[0], cutoff)] + AllTrimmed(fs[1..], cutoff)
  }

  /** A length-delimited field written with the shortest key and length reads back as itself. */
  lemma {:induction false} DelimitedReads(key: nat, payload: seq<byte>, t: seq<byte>)
    requires 0 < key < U64 && key % 8 == 2 && |payload| < U64
    ensures NextField(Delimited(key, payload) + t) == Ok(Field(key, 0, payload, Delimited(key, payload)))
  {
    var k, n := Encode(key), Encode(|payload|);
    var s := Delimited(key, payload) + t;
    DecodeEncode(key, n + payload + t);
    DecodeEncode(|payload|, payload + t);
    DelimitedPieces(k, n, payload, t);
    FieldFrom(s, Varint(key, |k|), Body(0, payload, |n| + |payload|));
  }

  lemma {:induction false} DelimitedPieces(k: seq<byte>, n: seq<byte>, payload: seq<byte>, t: seq<byte>)
    ensures var s := k + n + payload + t;
            s == k + (n + payload + t) && s[|k|..] == n + (payload + t) &&
            (n + (payload + t))[|n|..|n| + |payload|] == payload &&
            s[..|k| + (|n| + |payload|)] == k + n + payload
  {
  }

  /** The bytes of a length-delimited field are at least as many as the shortest form needs. */
  lemma {:induction false} DelimitedIsShortest(f: Field)
    requires Standalone(f) && f.WireType() == 2
    ensures 0 < f.key < U64 && f.value == 0 && |f.payload| < U64 && |Delimited(f.key, f.payload)| <= |f.raw|
  {
    NextFieldFacts(f.raw, []);
    var k := Decode(f.raw).value;
    DecodeFacts(f.raw, []);
    var tail := f.raw[k.length..];
    DecodeFacts(tail, []);
  }

  lemma {:induction false} TrimmedReads(f: Field, cutoff: nat, t: seq<byte>)
    requires Standalone(f) && TrimField(f, cutoff).Ok?
    ensures var g := Trimmed(f, cutoff);
            g.raw == TrimField(f, cutoff).value && g.raw != [] && |g.raw| <= |f.raw| &&
            NextField(g.raw + t) == Ok(g) && TrimField(g, cutoff) == Ok(g.raw)
  {
    if IsBundle(f) {
      DelimitedIsShortest(f);
      BundleMeaning(f.payload, cutoff);
      var bundle := TrimBundle(f.payload, cutoff).value;
      DelimitedReads(f.key, bundle, t);
      EncodeMonotone(|bundle|, |f.payload|);
    } else {
      NextFieldFacts(f.raw, t);
    }
  }

  /** A packet that trims parses to its own fields with trimmed bundles, is no longer than before,
      and is left alone by a second pass. */
  lemma {:induction false} FieldsMeaning(s: seq<byte>, cutoff: nat)
    requires TrimFields(s, cutoff).Ok?
    ensures ParseFields(s).Ok?
    ensures var out := TrimFields(s, cutoff).value;
            |out| <= |s| && ParseFields(out) == Ok(AllTrimmed(ParseFields(s).value, cutoff)) &&
            TrimFields(out, cutoff) == Ok(out)
    decreases |s|
  {
    if s != [] {
      var f := NextField(s).value;
      SplitHead(s);
      var rest := s[|f.raw|..];
      FieldsMeaning(rest, cutoff);
      FieldsStep(s, f, rest, cutoff);
    }
  }

  lemma {:induction false} FieldsStep(s: seq<byte>, f: Field, rest: seq<byte>, cutoff: nat)
    requires s == f.raw + rest && NextField(s) == Ok(f) && Standalone(f)
    requires TrimField(f, cutoff).Ok? && TrimFields(rest, cutoff).Ok? && ParseFields(rest).Ok?
    requires var out := TrimFields(rest, cutoff).value;
             ParseFields(out) == Ok(AllTrimmed(ParseFields(rest).value, cutoff)) && TrimFields(out, cutoff) == Ok(out)
    ensures ParseFields(s).Ok?
    ensures var out := TrimField(f, cutoff).value + TrimFields(rest, cutoff).value;
            |TrimField(f, cutoff).value| <= |f.raw| &&
            ParseFields(out) == Ok(AllTrimmed(ParseFields(s).value, cutoff)) && TrimFields(out, cutoff) == Ok(out)
  {
    var out := TrimFields(rest, cutoff).value;
    var g := Trimmed(f, cutoff);
    TrimmedReads(f, cutoff, out);
    ParseCons(f, rest);
    ParseCons(g, out);
    assert ([f] + ParseFields(rest).value)[1..] == ParseFields(rest).value;
    assert (g.raw + out)[|g.raw|..] == out;
  }

  /** Every bundle of the packet can be trimmed. */
  ghost predicate BundlesTrim(fs: seq<Field>) {
    forall i :: 0 <= i < |fs| && IsBundle(fs[i]) ==>
      ParseFields(fs[i].payload).Ok? && Trimmable(ParseFields(fs[i].payload).value)
  }

  /** A packet can be rewritten exactly when it parses and its bundles can be trimmed. */
  lemma {:induction false} FieldsExactly(s: seq<byte>, cutoff: nat)
    ensures TrimFields(s, cutoff).Ok? <==> ParseFields(s).Ok? && BundlesTrim(ParseFields(s).value)
    decreases |s|
  {
    if s != [] && NextField(s).Ok? {
      var f := NextField(s).value;
      SplitHead(s);
      FieldsExactly(s[|f.raw|..], cutoff);
      BundleMeaning(f.payload, cutoff);
      if ParseFields(s[|f.raw|..]).Ok? {
        BundlesTrimCons(f, ParseFields(s[|f.raw|..]).value);
      }
    }
  }

  lemma {:induction false} BundlesTrimCons(f: Field, fs: seq<Field>)
    ensures BundlesTrim([f] + fs) <==>
            (IsBundle(f) ==> ParseFields(f.payload).Ok? && Trimmable(ParseFields(f.payload).value)) && BundlesTrim(fs)
  {
    assert ([f] + fs)[0] == f;
    assert forall i :: 0 <= i < |fs| ==> ([f] + fs)[i + 1] == fs[i];
  }

  // ----- The decision

  /** The clock defaults learned so far, by packet sequence. */
  type ClockTable = map<nat, nat>

  function LearnDefault(clocks: ClockTable, m: Metadata): ClockTable {
    if m.sequence.Some? && m.defaultClock.Some? then clocks[m.sequence.value := m.defaultClock.value] else clocks
  }

  /** Explicit clock, else the default of the sequence, else zero, which counts as boottime. */
  function ClockOf(clocks: ClockTable, m: Metadata): nat {
    if m.clock == 0 && m.sequence.Some? && m.sequence.value in clocks then clocks[m.sequence.value] else m.clock
  }

  /** A packet without a bundle is dropped when its timestamp is below the cutoff of its clock. */
  predicate TooOld(m: Metadata, clock: nat, c: Cutoffs) {
    !m.ftrace && m.timestamp.Some? &&
    (((clock == 0 || clock == CLOCK_BOOTTIME) && m.timestamp.value < c.boottime) ||
     (clock == CLOCK_MONOTONIC && m.timestamp.value < c.monotonic))
  }

  /** What trim_packet does with a packet: the bytes kept, if any, and the table afterwards. */
  datatype Fate = Fate(kept: Option<seq<byte>>, clocks: ClockTable)

  /** trim_packet */
  function TrimOne(s: seq<byte>, c: Cutoffs, clocks: ClockTable): Result<Fate> {
    var m :- MetadataFrom(s, NOTHING_KNOWN);
    var clocks' := LearnDefault(clocks, m);
    if TooOld(m, ClockOf(clocks', m), c) then Ok(Fate(None, clocks'))
    else
      var out :- TrimFields(s, c.boottime);
      Ok(Fate(Some(out), clocks'))
  }

  /** Trimming bundles does not touch anything the metadata depends on. */
  lemma {:induction false} MetadataSurvives(fs: seq<Field>, cutoff: nat, m: Metadata)
    ensures LearnAll(AllTrimmed(fs, cutoff), m) == LearnAll(fs, m)
    decreases |fs|
  {
    if fs != [] {
      var rest := AllTrimmed(fs[1..], cutoff);
      LearnFirst(Trimmed(fs[0], cutoff), rest, m);
      LearnFirst(fs[0], fs[1..], m);
      assert [fs[0]] + fs[1..] == fs;
      assert Learn(m, Trimmed(fs[0], cutoff)) == Learn(m, fs[0]);
      if Learn(m, fs[0]).Ok? {
        MetadataSurvives(fs[1..], cutoff, Learn(m, fs[0]).value);
      }
    }
  }

  /** Trimming a kept packet again changes nothing, neither under the table it was judged with nor
      under the table it left behind. */
  lemma {:induction false} RetrimChangesNothing(
      s: seq<byte>, c: Cutoffs, clocks: ClockTable, clocks': ClockTable, out: seq<byte>)
    requires TrimOne(s, c, clocks) == Ok(Fate(Some(out), clocks'))
    ensures TrimOne(out, c, clocks) == Ok(Fate(Some(out), clocks'))
    ensures TrimOne(out, c, clocks') == Ok(Fate(Some(out), clocks'))
  {
    FieldsMeaning(s, c.boottime);
    MetadataOfFields(s, NOTHING_KNOWN);
    MetadataOfFields(out, NOTHING_KNOWN);
    MetadataSurvives(ParseFields(s).value, c.boottime, NOTHING_KNOWN);
    var m := MetadataFrom(s, NOTHING_KNOWN).value;
    assert LearnDefault(clocks', m) == clocks';
  }
}
