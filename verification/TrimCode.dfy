/** The loops of the trimmer: cursors that advance, buffers that grow and the list of clock
    defaults, each proved equal to the function that Trim, TrimPacket and TrimStream reason about.
    A C cursor is the rest of the message from it on. */
module TrimCode {
  import opened Wrappers
  import opened Bits
  import opened Wire
  import opened Trim
  import opened TrimPacket
  import opened TrimStream

  // ----- Varints

  function Accumulate(result: nat, digit: nat, scale: nat): nat {
    result + digit * scale
  }

  /** The first `i` bytes carried `result`, and `scale` is 128 to the power of `i`. */
  ghost function Resume(result: nat, scale: nat, i: nat, r: Result<Varint>): Result<Varint> {
    match r
    case Ok(v) => Ok(Varint(result + scale * v.value, i + v.length))
    case Err(e) => Err(e)
  }

  lemma {:induction false} ResumeStep(result: nat, scale: nat, i: nat, b: byte, r: Result<Varint>)
    requires b >= 128
    ensures Resume(result, scale, i,
                   match r case Ok(v) => Ok(Varint(b - 128 + 128 * v.value, v.length + 1)) case Err(e) => Err(e))
         == Resume(Accumulate(result, b - 128, scale), 128 * scale, i + 1, r)
  {
    if r.Ok? {
      var v := r.value.value;
      assert scale * (b - 128 + 128 * v) == (b - 128) * scale + 128 * scale * v;
    }
  }

  lemma {:induction false} DecodeTurn(s: seq<byte>, result: nat, scale: nat, i: nat)
    requires i < 10 && i < |s|
    ensures var whole := Resume(result, scale, i, DecodeFrom(s[i..], i));
            var b := s[i];
            (i == 9 && b > 1 ==> whole == Err(BadMessage)) &&
            (b < 128 && !(i == 9 && b > 1) ==> whole == Ok(Varint(Accumulate(result, b, scale), i + 1))) &&
            (b >= 128 && i < 9 ==>
               whole == Resume(Accumulate(result, b - 128, scale), 128 * scale, i + 1, DecodeFrom(s[i + 1..], i + 1)))
  {
    assert s[i..][0] == s[i] && s[i..][1..] == s[i + 1..];
    if s[i] >= 128 && i < 9 {
      ResumeStep(result, scale, i, s[i], DecodeFrom(s[i + 1..], i + 1));
    }
  }

  /** decode_varint; the bits of each byte are new, so the bitwise or is an addition. */
  method DecodeVarint(s: seq<byte>) returns (r: Result<Varint>)
    ensures r == Decode(s)
  {
    var result: nat, scale: nat, i: nat := 0, 1, 0;
    assert s[0..] == s;
    while i < 10 && i < |s|
      invariant i <= 10 && i <= |s|
      invariant Decode(s) == Resume(result, scale, i, DecodeFrom(s[i..], i))
    {
      var b: nat := s[i];
      DecodeTurn(s, result, scale, i);
      if i == 9 && b > 1 {
        return Err(BadMessage);
      }
      if b < 128 {
        return Ok(Varint(Accumulate(result, b, scale), i + 1));
      }
      result := Accumulate(result, b - 128, scale);
      scale := 128 * scale;
      i := i + 1;
    }
    return Err(BadMessage);
  }

  /** buffer_varint */
  method AppendVarint(buffer: seq<byte>, value: nat) returns (r: seq<byte>)
    ensures r == buffer + Encode(value)
  {
    var encoded: seq<byte> := [];
    var v := value;
    while v >= 128
      invariant encoded + Encode(v) == Encode(value)
    {
      assert encoded + ([128 + v % 128] + Encode(v / 128)) == encoded + [128 + v % 128] + Encode(v / 128);
      encoded := encoded + [128 + v % 128];
      v := v / 128;
    }
    encoded := encoded + [v];
    r := buffer + encoded;
  }

  // ----- Walking a message

  /** A result for the rest of a message, with what was collected so far put in front. */
  ghost function Collected<T>(front: seq<T>, r: Result<seq<T>>): Result<seq<T>> {
    match r case Ok(x) => Ok(front + x) case Err(e) => Err(e)
  }

  lemma {:induction false} CollectedMore<T>(front: seq<T>, piece: seq<T>, r: Result<seq<T>>)
    ensures Collected(front, Collected(piece, r)) == Collected(front + piece, r)
  {
    if r.Ok? { assert front + (piece + r.value) == front + piece + r.value; }
  }

  lemma {:induction false} NothingCollected<T>(r: Result<seq<T>>)
    ensures Collected([], r) == r
  {
    if r.Ok? { assert [] + r.value == r.value; }
  }

  lemma {:induction false} AllCollected<T>(front: seq<T>)
    ensures Collected(front, Ok([])) == Ok(front)
  {
    assert front + [] == front;
  }

  /** The remaining answer of message_varint once `found` is the latest match. */
  ghost function LaterOr(found: Option<nat>, r: Result<Option<nat>>): Result<Option<nat>> {
    match r case Ok(later) => Ok(if later.Some? then later else found) case Err(e) => Err(e)
  }

  lemma {:induction false} LastOfCons(f: Field, fs: seq<Field>, number: nat)
    ensures LastOf([f] + fs, number) ==
            if LastOf(fs, number).Some? then LastOf(fs, number)
            else if IsVarint(f, number) then Some(f.value) else None
  {
    if fs == [] {
      assert [f] + fs == [f] && [f][..0] == [];
    } else {
      LastOfCons(f, fs[..|fs| - 1], number);
      assert ([f] + fs)[..|fs|] == [f] + fs[..|fs| - 1];
    }
  }

  lemma {:induction false} LastVarintStep(s: seq<byte>, number: nat, found: Option<nat>)
    requires s != [] && NextField(s).Ok?
    ensures var f := NextField(s).value;
            0 < |f.raw| <= |s| &&
            LaterOr(found, LastVarint(s, number)) ==
            LaterOr(if IsVarint(f, number) then Some(f.value) else found, LastVarint(s[|f.raw|..], number))
  {
    NextFieldFacts(s, []);
    var f := NextField(s).value;
    if ParseFields(s[|f.raw|..]).Ok? {
      LastOfCons(f, ParseFields(s[|f.raw|..]).value, number);
    }
  }

  /** message_varint and event_timestamp */
  method MessageVarint(s: seq<byte>, number: nat) returns (r: Result<Option<nat>>)
    ensures r == LastVarint(s, number)
  {
    var cursor := s;
    var found := None;
    while cursor != []
      invariant LastVarint(s, number) == LaterOr(found, LastVarint(cursor, number))
      decreases |cursor|
    {
      var next := NextField(cursor);
      if next.Err? {
        return Err(next.error);
      }
      var f := next.value;
      LastVarintStep(cursor, number, found);
      if IsVarint(f, number) {
        found := Some(f.value);
      }
      cursor := cursor[|f.raw|..];
    }
    return Ok(found);
  }

  /** What one field of a bundle leaves behind, with the timestamp read by a loop. */
  method BundlePiece(f: Field, cutoff: nat) returns (r: Result<seq<byte>>)
    ensures r == TrimBundleField(f, cutoff)
  {
    if f.Number() == 4 {
      return Err(CompressedBundle);
    }
    if f.Number() != 2 || f.WireType() != 2 {
      return Ok(f.raw);
    }
    var stamp := MessageVarint(f.payload, 1);
    if stamp.Err? {
      return Err(stamp.error);
    }
    return Ok(if stamp.value.None? || stamp.value.value >= cutoff then f.raw else []);
  }

  lemma {:induction false} BundleTurn(s: seq<byte>, cutoff: nat, trimmed: seq<byte>)
    requires s != [] && NextField(s).Ok?
    ensures var f := NextField(s).value;
            0 < |f.raw| <= |s| &&
            match TrimBundleField(f, cutoff)
            case Err(e) => TrimBundle(s, cutoff) == Err(e)
            case Ok(piece) =>
              Collected(trimmed, TrimBundle(s, cutoff)) == Collected(trimmed + piece, TrimBundle(s[|f.raw|..], cutoff))
  {
    NextFieldFacts(s, []);
    var f := NextField(s).value;
    if TrimBundleField(f, cutoff).Ok? {
      CollectedMore(trimmed, TrimBundleField(f, cutoff).value, TrimBundle(s[|f.raw|..], cutoff));
    }
  }

  /** trim_ftrace_bundle */
  method TrimFtraceBundle(s: seq<byte>, cutoff: nat) returns (r: Result<seq<byte>>)
    ensures r == TrimBundle(s, cutoff)
  {
    var cursor := s;
    var trimmed: seq<byte> := [];
    NothingCollected(TrimBundle(s, cutoff));
    while cursor != []
      invariant TrimBundle(s, cutoff) == Collected(trimmed, TrimBundle(cursor, cutoff))
      decreases |cursor|
    {
      var next := NextField(cursor);
      if next.Err? {
        return Err(next.error);
      }
      var f := next.value;
      BundleTurn(cursor, cutoff, trimmed);
      var piece := BundlePiece(f, cutoff);
      if piece.Err? {
        return Err(piece.error);
      }
      trimmed := trimmed + piece.value;
      cursor := cursor[|f.raw|..];
    }
    AllCollected(trimmed);
    return Ok(trimmed);
  }

  /** packet_metadata */
  method PacketMetadata(s: seq<byte>) returns (r: Result<Metadata>)
    ensures r == MetadataFrom(s, NOTHING_KNOWN)
  {
    var cursor := s;
    var m := NOTHING_KNOWN;
    while cursor != []
      invariant MetadataFrom(s, NOTHING_KNOWN) == MetadataFrom(cursor, m)
      decreases |cursor|
    {
      var next := NextField(cursor);
      if next.Err? {
        return Err(next.error);
      }
      var f := next.value;
      NextFieldFacts(cursor, []);
      if f.Number() == 8 && f.WireType() == 0 {
        m := m.(timestamp := Some(f.value));
      } else if f.Number() == 58 && f.WireType() == 0 {
        m := m.(clock := f.value);
      } else if f.Number() == 10 && f.WireType() == 0 {
        m := m.(sequence := Some(f.value));
      } else if f.Number() == 1 && f.WireType() == 2 {
        m := m.(ftrace := true);
      } else if f.Number() == 59 && f.WireType() == 2 {
        var clock := MessageVarint(f.payload, 58);
        if clock.Err? {
          return Err(clock.error);
        }
        m := m.(defaultClock := clock.value);
      } else if f.Number() == 50 || f.Number() == 133 {
        return Err(UnsupportedPacket);
      }
      cursor := cursor[|f.raw|..];
    }
    return Ok(m);
  }

  lemma {:induction false} CopyTurn(s: seq<byte>, cutoff: nat, trimmed: seq<byte>)
    requires s != [] && NextField(s).Ok?
    ensures var f := NextField(s).value;
            0 < |f.raw| <= |s| &&
            match TrimField(f, cutoff)
            case Err(e) => TrimFields(s, cutoff) == Err(e)
            case Ok(piece) =>
              Collected(trimmed, TrimFields(s, cutoff)) == Collected(trimmed + piece, TrimFields(s[|f.raw|..], cutoff))
  {
    NextFieldFacts(s, []);
    var f := NextField(s).value;
    if TrimField(f, cutoff).Ok? {
      CollectedMore(trimmed, TrimField(f, cutoff).value, TrimFields(s[|f.raw|..], cutoff));
    }
  }

  /** The copying loop of trim_packet. */
  method CopyFields(s: seq<byte>, cutoff: nat) returns (r: Result<seq<byte>>)
    ensures r == TrimFields(s, cutoff)
  {
    var cursor := s;
    var trimmed: seq<byte> := [];
    NothingCollected(TrimFields(s, cutoff));
    while cursor != []
      invariant TrimFields(s, cutoff) == Collected(trimmed, TrimFields(cursor, cutoff))
      decreases |cursor|
    {
      var next := NextField(cursor);
      if next.Err? {
        return Err(next.error);
      }
      var f := next.value;
      CopyTurn(cursor, cutoff, trimmed);
      if f.Number() == 1 && f.WireType() == 2 {
        var bundle := TrimFtraceBundle(f.payload, cutoff);
        if bundle.Err? {
          return Err(bundle.error);
        }
        trimmed := AppendDelimited(trimmed, f.key, bundle.value);
      } else {
        trimmed := trimmed + f.raw;
      }
      cursor := cursor[|f.raw|..];
    }
    AllCollected(trimmed);
    return Ok(trimmed);
  }

  method AppendDelimited(buffer: seq<byte>, key: nat, payload: seq<byte>) returns (r: seq<byte>)
    ensures r == buffer + Delimited(key, payload)
  {
    var withKey := AppendVarint(buffer, key);
    var withLength := AppendVarint(withKey, |payload|);
    r := withLength + payload;
    assert buffer + Encode(key) + Encode(|payload|) + payload == buffer + (Encode(key) + Encode(|payload|) + payload);
  }

  // ----- Clock defaults

  datatype ClockDefault = ClockDefault(sequence: nat, clock: nat)

  ghost function TableOf(entries: seq<ClockDefault>): ClockTable {
    if entries == [] then map[] else TableOf(entries[1..])[entries[0].sequence := entries[0].clock]
  }

  ghost predicate OnePerSequence(entries: seq<ClockDefault>) {
    forall i, j :: 0 <= i < j < |entries| ==> entries[i].sequence != entries[j].sequence
  }

  /** The first entry of a sequence is what the table says about it. */
  lemma {:induction false} FirstEntry(entries: seq<ClockDefault>, i: nat)
    requires i < |entries| && forall k :: 0 <= k < i ==> entries[k].sequence != entries[i].sequence
    ensures entries[i].sequence in TableOf(entries) && TableOf(entries)[entries[i].sequence] == entries[i].clock
  {
    if i > 0 {
      FirstEntry(entries[1..], i - 1);
    }
  }

  lemma {:induction false} NoEntry(entries: seq<ClockDefault>, sequence: nat)
    requires forall k :: 0 <= k < |entries| ==> entries[k].sequence != sequence
    ensures sequence !in TableOf(entries)
  {
    if entries != [] {
      NoEntry(entries[1..], sequence);
    }
  }

  /** Overwriting the only entry of a sequence overwrites it in the table. */
  lemma {:induction false} Overwrite(entries: seq<ClockDefault>, i: nat, clock: nat)
    requires i < |entries| && OnePerSequence(entries)
    ensures TableOf(entries[i := ClockDefault(entries[i].sequence, clock)]) ==
            TableOf(entries)[entries[i].sequence := clock]
  {
    var updated := entries[i := ClockDefault(entries[i].sequence, clock)];
    if i == 0 {
      assert updated[1..] == entries[1..];
    } else {
      Overwrite(entries[1..], i - 1, clock);
      assert updated[1..] == entries[1..][i - 1 := ClockDefault(entries[i].sequence, clock)];
      assert entries[0].sequence != entries[i].sequence;
    }
  }

  /** The trim state: a list of defaults, newest sequence first. */
  class ClockDefaults {
    var entries: seq<ClockDefault>

    ghost predicate Valid()
      reads this
    {
      OnePerSequence(entries)
    }

    ghost function Table(): ClockTable
      reads this
    {
      TableOf(entries)
    }

    constructor ()
      ensures Valid() && Table() == map[]
    {
      entries := [];
    }

    /** clock_default_get */
    method Get(sequence: nat) returns (clock: Option<nat>)
      requires Valid()
      ensures clock == if sequence in Table() then Some(Table()[sequence]) else None
    {
      for i := 0 to |entries|
        invariant forall k :: 0 <= k < i ==> entries[k].sequence != sequence
      {
        if entries[i].sequence == sequence {
          FirstEntry(entries, i);
          return Some(entries[i].clock);
        }
      }
      NoEntry(entries, sequence);
      return None;
    }

    /** clock_default_set */
    method Set(sequence: nat, clock: nat)
      requires Valid()
      modifies this
      ensures Valid() && Table() == old(Table())[sequence := clock]
    {
      for i := 0 to |entries|
        invariant forall k :: 0 <= k < i ==> entries[k].sequence != sequence
        invariant entries == old(entries)
      {
        if entries[i].sequence == sequence {
          Overwrite(entries, i, clock);
          entries := entries[i := ClockDefault(sequence, clock)];
          return;
        }
      }
      entries := [ClockDefault(sequence, clock)] + entries;
      assert entries[1..] == old(entries);
    }

    /** trim_packet */
    method TrimPacket(s: seq<byte>, c: Cutoffs) returns (r: Result<Option<seq<byte>>>)
      requires Valid()
      modifies this
      ensures Valid()
      ensures match TrimOne(s, c, old(Table()))
              case Ok(fate) => r == Ok(fate.kept) && Table() == fate.clocks
              case Err(e) => r == Err(e)
    {
      var metadata := PacketMetadata(s);
      if metadata.Err? {
        return Err(metadata.error);
      }
      var m := metadata.value;
      if m.sequence.Some? && m.defaultClock.Some? {
        Set(m.sequence.value, m.defaultClock.value);
      }
      var clock := m.clock;
      if clock == 0 && m.sequence.Some? {
        var default := Get(m.sequence.value);
        if default.Some? {
          clock := default.value;
        }
      }
      if TooOld(m, clock, c) {
        return Ok(None);
      }
      var out := CopyFields(s, c.boottime);
      if out.Err? {
        return Err(out.error);
      }
      return Ok(Some(out.value));
    }
  }

  lemma {:induction false} StreamTurn(s: seq<byte>, c: Cutoffs, clocks: ClockTable, output: seq<byte>)
    requires s != [] && ReadPacket(s).Ok?
    ensures var p := ReadPacket(s).value;
            0 < |p.raw| <= |s| &&
            match TrimOne(p.payload, c, clocks)
            case Err(e) => TrimFrom(s, c, clocks) == Err(e)
            case Ok(fate) =>
              Collected(output, TrimFrom(s, c, clocks)) ==
              Collected(output + Output(fate), TrimFrom(s[|p.raw|..], c, fate.clocks))
  {
    PacketIsField(s);
    var p := ReadPacket(s).value;
    if TrimOne(p.payload, c, clocks).Ok? {
      var fate := TrimOne(p.payload, c, clocks).value;
      CollectedMore(output, Output(fate), TrimFrom(s[|p.raw|..], c, fate.clocks));
    }
  }

  /** trim_stream_packets, with the files as byte sequences: on success everything read has been
      judged and the output is what the specification says. */
  method TrimStreamPackets(input: seq<byte>, c: Cutoffs) returns (r: Result<seq<byte>>)
    ensures r == TrimTrace(input, c)
  {
    var state := new ClockDefaults();
    var cursor := input;
    var output: seq<byte> := [];
    NothingCollected(TrimTrace(input, c));
    while cursor != []
      invariant state.Valid() && fresh(state)
      invariant TrimTrace(input, c) == Collected(output, TrimFrom(cursor, c, state.Table()))
      decreases |cursor|
    {
      var next := ReadPacket(cursor);
      if next.Err? {
        return Err(next.error);
      }
      var p := next.value;
      PacketIsField(cursor);
      StreamTurn(cursor, c, state.Table(), output);
      var kept := state.TrimPacket(p.payload, c);
      if kept.Err? {
        return Err(kept.error);
      }
      if kept.value.Some? {
        output := AppendDelimited(output, PACKET_KEY, kept.value.value);
      } else {
        assert output + [] == output;
      }
      cursor := cursor[|p.raw|..];
    }
    AllCollected(output);
    return Ok(output);
  }
}
