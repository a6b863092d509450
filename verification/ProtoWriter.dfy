/** The protobuf writers of the exporter.  A buffer grows at its end and refuses everything once an
    allocation has failed; which sizes the allocator grants is a parameter. */
module ProtoWriter {
  import opened Wrappers
  import opened Bits
  import opened Wire
  import TrimPacket

  /** What a writer puts into a buffer. */
  datatype Written =
    | Uint(number: nat, value: nat)
    | Fixed64(number: nat, value: nat)
    | Text(number: nat, content: seq<byte>)
  {
    /** The ranges of the C parameters. */
    predicate Representable() {
      number < U32 && match this case Text(_, content) => |content| < U64 case _ => value < U64
    }

    function Key(): nat {
      8 * number + match this case Uint(_, _) => 0 case Fixed64(_, _) => 1 case Text(_, _) => 2
    }

    function Bytes(): (r: seq<byte>)
      ensures r != []
    {
      Encode(Key()) +
      match this
      case Uint(_, value) => Encode(value)
      case Fixed64(_, value) => Store(value, 8)
      case Text(_, content) => Encode(|content|) + content
    }

    /** The field the trimmer's parser must find. */
    ghost function ReadsAs(): Field {
      Field(Key(), if Uint? then value else 0, if Text? then content else [], Bytes())
    }
  }

  function AllBytes(ws: seq<Written>): seq<byte> {
    if ws == [] then [] else ws[0].Bytes() + AllBytes(ws[1..])
  }

  ghost function AllReadAs(ws: seq<Written>): seq<Field> {
    if ws == [] then [] else [ws[0].ReadsAs()] + AllReadAs(ws[1..])
  }

  lemma {:induction false} UintReads(w: Written, t: seq<byte>)
    requires w.Uint? && w.Representable() && w.Key() != 0
    ensures NextField(w.Bytes() + t) == Ok(w.ReadsAs())
  {
    var k, v := Encode(w.Key()), Encode(w.value);
    DecodeEncode(w.Key(), v + t);
    DecodeEncode(w.value, t);
    TwoPieces(k, v, t);
    FieldFrom(w.Bytes() + t, Varint(w.Key(), |k|), Body(w.value, [], |v|));
  }

  lemma {:induction false} Fixed64Reads(w: Written, t: seq<byte>)
    requires w.Fixed64? && w.Representable()
    ensures NextField(w.Bytes() + t) == Ok(w.ReadsAs())
  {
    EightByteFieldReads(w.Key(), Store(w.value, 8), t);
  }

  lemma {:induction false} EightByteFieldReads(key: nat, v: seq<byte>, t: seq<byte>)
    requires 0 < key < U64 && key % 8 == 1 && |v| == 8
    ensures NextField(Encode(key) + v + t) == Ok(Field(key, 0, [], Encode(key) + v))
  {
    var k := Encode(key);
    DecodeEncode(key, v + t);
    TwoPieces(k, v, t);
    FieldFrom(k + v + t, Varint(key, |k|), Body(0, [], 8));
  }

  lemma {:induction false} TwoPieces(k: seq<byte>, v: seq<byte>, t: seq<byte>)
    ensures k + v + t == k + (v + t) && (k + v + t)[|k|..] == v + t && (k + v + t)[..|k| + |v|] == k + v
  {
  }

  lemma {:induction false} TextReads(w: Written, t: seq<byte>)
    requires w.Text? && w.Representable()
    ensures NextField(w.Bytes() + t) == Ok(w.ReadsAs())
  {
    var k, n := Encode(w.Key()), Encode(|w.content|);
    TrimPacket.DelimitedReads(w.Key(), w.content, t);
    assert k + (n + w.content) == k + n + w.content;
  }

  lemma {:induction false} ReservedKey(w: Written, t: seq<byte>)
    requires w.Representable() && w.Key() == 0
    ensures NextField(w.Bytes() + t) == Err(BadMessage)
  {
    assert w.Bytes() + t == Encode(0) + (Encode(w.value) + t);
    DecodeEncode(0, Encode(w.value) + t);
  }

  lemma {:induction false} Fixed64Value(w: Written)
    requires w.Fixed64? && w.Representable()
    ensures |w.Bytes()| >= 8 && Load(w.Bytes()[|w.Bytes()| - 8..]) == w.value
  {
    Widths();
    LoadStore(w.value, 8);
    assert w.Bytes()[|w.Bytes()| - 8..] == Store(w.value, 8);
  }

  /** The parser finds a written field, with every byte of it, whatever follows; the
      only thing it rejects is the reserved key zero. */
  lemma {:induction false} FieldReadsBack(w: Written, t: seq<byte>)
    requires w.Representable()
    ensures NextField(w.Bytes() + t) == if w.Key() != 0 then Ok(w.ReadsAs()) else Err(BadMessage)
  {
    if w.Key() == 0 {
      ReservedKey(w, t);
    } else if w.Uint? {
      UintReads(w, t);
    } else if w.Fixed64? {
      Fixed64Reads(w, t);
    } else {
      TextReads(w, t);
    }
  }

  /** Cutting the number to 32 bits loses nothing of a number that was written. */
  lemma {:induction false} NumberSurvives(w: Written)
    requires w.Representable()
    ensures w.ReadsAs().Number() == w.number
  {
    var k := w.Key() - 8 * w.number;
    assert (8 * w.number + k) / 8 == w.number;
  }

  /** Writers and parser are inverse: any fields written one after the other parse back to exactly
      those fields, and the parse partitions the bytes. */
  lemma {:induction false} ParseWhatWasWritten(ws: seq<Written>)
    requires forall i :: 0 <= i < |ws| ==> ws[i].Representable() && ws[i].Key() != 0
    ensures ParseFields(AllBytes(ws)) == Ok(AllReadAs(ws)) && Raws(AllReadAs(ws)) == AllBytes(ws)
  {
    if ws != [] {
      var rest := AllBytes(ws[1..]);
      ParseWhatWasWritten(ws[1..]);
      FieldReadsBack(ws[0], rest);
      ParseCons(ws[0].ReadsAs(), rest);
      assert AllReadAs(ws)[1..] == AllReadAs(ws[1..]);
    }
  }

  // ----- Annotations

  /** A debug annotation as a message of its own: name in field 10, text in field 6. */
  function Annotation(name: seq<byte>, text: seq<byte>): seq<byte> {
    Text(10, name).Bytes() + Text(6, text).Bytes()
  }

  /** Bytes that `Encode` needs beyond the first. */
  function ExtraBytes(n: nat): nat {
    if n < 128 then 0 else 1 + ExtraBytes(n / 128)
  }

  lemma {:induction false} EncodeLength(n: nat)
    ensures |Encode(n)| == 1 + ExtraBytes(n)
  {
    if n >= 128 { EncodeLength(n / 128); }
  }

  lemma {:induction false} AnnotationLength(name: seq<byte>, text: seq<byte>)
    ensures |Annotation(name, text)| == 4 + |name| + |text| + ExtraBytes(|name|) + ExtraBytes(|text|)
  {
    EncodeLength(|name|);
    EncodeLength(|text|);
    assert |Encode(82)| == 1 && |Encode(50)| == 1;
  }

  class ProtoBuffer {
    /** Whether the allocator lets the buffer grow to a size. */
    const grants: nat -> bool
    var data: seq<byte>
    var failed: bool

    constructor (grants: nat -> bool)
      ensures data == [] && !failed && this.grants == grants
    {
      this.grants := grants;
      data, failed := [], false;
    }

    /** No allocation is ever refused. */
    ghost predicate Unlimited() {
      forall n: nat :: grants(n)
    }

    /** proto_bytes: all of it or nothing, and nothing after a failure. */
    method Append(bytes: seq<byte>)
      modifies this
      ensures if failed then data == old(data) else !old(failed) && data == old(data) + bytes
      ensures failed <==> old(failed) || !grants(|old(data)| + |bytes|)
    {
      if failed {
        return;
      }
      if grants(|data| + |bytes|) {
        data := data + bytes;
      } else {
        failed := true;
      }
    }

    /** proto_varint */
    method AppendVarint(value: nat)
      modifies this
      ensures if failed then data == old(data) else !old(failed) && data == old(data) + Encode(value)
      ensures failed <==> old(failed) || !grants(|old(data)| + |Encode(value)|)
    {
      var encoded: seq<byte> := [];
      var v := value;
      while v >= 128
        invariant encoded + Encode(v) == Encode(value)
      {
        assert encoded + ([128 + v % 128] + Encode(v / 128)) == encoded + [128 + v % 128] + Encode(v / 128);
        encoded := encoded + [128 + v % 128];
        v := v / 128;
      }
      Append(encoded + [v]);
    }

    /** proto_uint */
    method WriteUint(number: nat, value: nat)
      modifies this
      ensures !failed ==> !old(failed) && data == old(data) + Uint(number, value).Bytes()
      ensures Unlimited() && !old(failed) ==> !failed
    {
      AppendVarint(8 * number + 0);
      AppendVarint(value);
      assert old(data) + Encode(8 * number) + Encode(value) == old(data) + (Encode(8 * number) + Encode(value));
    }

    /** proto_fixed64 */
    method WriteFixed64(number: nat, value: nat)
      modifies this
      ensures !failed ==> !old(failed) && data == old(data) + Fixed64(number, value).Bytes()
      ensures Unlimited() && !old(failed) ==> !failed
    {
      var encoded := Store(value, 8);
      AppendVarint(8 * number + 1);
      Append(encoded);
      assert old(data) + Encode(8 * number + 1) + encoded == old(data) + (Encode(8 * number + 1) + encoded);
    }

    /** proto_string */
    method WriteText(number: nat, content: seq<byte>)
      modifies this
      ensures !failed ==> !old(failed) && data == old(data) + Text(number, content).Bytes()
      ensures Unlimited() && !old(failed) ==> !failed
    {
      AppendVarint(8 * number + 2);
      AppendVarint(|content|);
      Append(content);
      assert old(data) + Encode(8 * number + 2) + Encode(|content|) + content ==
             old(data) + (Encode(8 * number + 2) + (Encode(|content|) + content));
    }

    /** proto_message: a failed part spoils the whole. */
    method WriteMessage(number: nat, message: ProtoBuffer)
      requires message != this
      modifies this
      ensures !failed ==> !old(failed) && !message.failed && data == old(data) + Text(number, message.data).Bytes()
      ensures Unlimited() && !old(failed) && !message.failed ==> !failed
    {
      if message.failed {
        failed := true;
        return;
      }
      WriteText(number, message.data);
    }

    /** native_annotation_string: writes the nested message in place behind a length worked out
        beforehand, and leaves the same bytes as building it separately and wrapping it. */
    method AnnotationInPlace(name: seq<byte>, value: Option<seq<byte>>)
      modifies this
      ensures !failed ==>
                !old(failed) &&
                data == old(data) + Text(4, Annotation(name, if value.Some? then value.value else [])).Bytes()
      ensures Unlimited() && !old(failed) ==> !failed
    {
      var text := if value.Some? then value.value else [];
      var size: nat, n: nat := 4 + |name| + |text|, |name|;
      while n >= 128
        invariant size + ExtraBytes(n) == 4 + |name| + |text| + ExtraBytes(|name|)
      {
        n := n / 128;
        size := size + 1;
      }
      n := |text|;
      while n >= 128
        invariant size + ExtraBytes(n) == 4 + |name| + |text| + ExtraBytes(|name|) + ExtraBytes(|text|)
      {
        n := n / 128;
        size := size + 1;
      }
      AnnotationLength(name, text);
      WriteParts(size, name, text);
    }

    method WriteParts(size: nat, name: seq<byte>, text: seq<byte>)
      requires size == |Annotation(name, text)|
      modifies this
      ensures !failed ==> !old(failed) && data == old(data) + Text(4, Annotation(name, text)).Bytes()
      ensures Unlimited() && !old(failed) ==> !failed
    {
      AppendVarint(8 * 4 + 2);
      AppendVarint(size);
      WriteText(10, name);
      WriteText(6, text);
      SamePieces(old(data), Encode(34), Encode(size), Text(10, name).Bytes(), Text(6, text).Bytes());
    }

    /** The separate form of the same annotation. */
    method AnnotationNested(name: seq<byte>, value: Option<seq<byte>>)
      modifies this
      ensures !failed ==>
                !old(failed) &&
                data == old(data) + Text(4, Annotation(name, if value.Some? then value.value else [])).Bytes()
      ensures Unlimited() && !old(failed) ==> !failed
    {
      var text := if value.Some? then value.value else [];
      var nested := new ProtoBuffer(grants);
      nested.WriteText(10, name);
      nested.WriteText(6, text);
      assert !nested.failed ==> nested.data == Annotation(name, text);
      WriteMessage(4, nested);
    }
  }

  lemma {:induction false} SamePieces(d: seq<byte>, k: seq<byte>, n: seq<byte>, a: seq<byte>, b: seq<byte>)
    ensures d + k + n + a + b == d + (k + (n + (a + b)))
  {
  }
}
