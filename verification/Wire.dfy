/** The wire format of the Protocol Buffers encoding guide ("Base 128 Varints", "Message
    Structure") as the trimmer reads it, and the encoder it is the inverse of. */
module Wire {
  import opened Wrappers
  import opened Bits

  /** The error codes of the trimmer. */
  datatype Error = BadMessage | BadWireType | CompressedBundle | UnsupportedPacket | MissingLength

  datatype Result<+T> = Ok(value: T) | Err(error: Error)
  {
    predicate IsFailure() { Err? }

    function PropagateFailure<U>(): Result<U>
      requires Err?
    {
      Err(error)
    }

    function Extract(): T
      requires Ok?
    {
      value
    }
  }

  /** A decoded varint and the number of bytes it took. */
  datatype Varint = Varint(value: nat, length: nat)

  /** One more than the largest value that the varint bytes from the `i`-th on can carry. */
  ghost function Limit(i: nat): (r: nat)
    ensures r > 1
    decreases 9 - i
  {
    if i >= 9 then 2 else 128 * Limit(i + 1)
  }

  lemma {:induction false} LimitIsU64()
    ensures Limit(0) == U64
  {
    assert Limit(8) == 256;
    assert Limit(6) == 128 * 128 * Limit(8);
    assert Limit(4) == 128 * 128 * Limit(6);
    assert Limit(2) == 128 * 128 * Limit(4);
    assert Limit(0) == 128 * 128 * Limit(2);
  }

  /** The value of a varint whose first `i` bytes are already read: seven bits a byte, low bits
      first, at most ten bytes, and at most one bit in the tenth. */
  function DecodeFrom(s: seq<byte>, i: nat): Result<Varint>
    requires i <= 10
    decreases 10 - i
  {
    if i == 10 || s == [] then Err(BadMessage)
    else if i == 9 && s[0] > 1 then Err(BadMessage)
    else if s[0] < 128 then Ok(Varint(s[0], 1))
    else
      var v :- DecodeFrom(s[1..], i + 1);
      Ok(Varint(s[0] - 128 + 128 * v.value, v.length + 1))
  }

  function Decode(s: seq<byte>): Result<Varint> {
    DecodeFrom(s, 0)
  }

  /** The shortest varint of a value. */
  function Encode(v: nat): (r: seq<byte>)
    ensures |r| > 0
  {
    if v < 128 then [v] else [128 + v % 128] + Encode(v / 128)
  }

  lemma {:induction false} DecodeEncodeFrom(v: nat, i: nat, rest: seq<byte>)
    requires i <= 9 && v < Limit(i)
    ensures DecodeFrom(Encode(v) + rest, i) == Ok(Varint(v, |Encode(v)|))
    decreases v
  {
    if v >= 128 {
      DecodeEncodeFrom(v / 128, i + 1, rest);
      assert (Encode(v) + rest)[1..] == Encode(v / 128) + rest;
    }
  }

  /** Every 64-bit value survives the round trip, whatever follows it. */
  lemma {:induction false} DecodeEncode(v: nat, rest: seq<byte>)
    requires v < U64
    ensures Decode(Encode(v) + rest) == Ok(Varint(v, |Encode(v)|))
  {
    LimitIsU64();
    DecodeEncodeFrom(v, 0, rest);
  }

  /** What a successful decode guarantees: it looked at no byte past the varint, the value fits,
      and no encoding of the value is shorter than the one `Encode` gives. */
  lemma {:induction false} DecodeFromFacts(s: seq<byte>, i: nat, t: seq<byte>)
    requires i <= 10 && DecodeFrom(s, i).Ok?
    ensures var v := DecodeFrom(s, i).value;
            0 < v.length <= |s| && v.value < Limit(i) && |Encode(v.value)| <= v.length &&
            DecodeFrom(s[..v.length] + t, i) == Ok(v)
    decreases 10 - i
  {
    var v := DecodeFrom(s, i).value;
    if s[0] >= 128 {
      DecodeFromFacts(s[1..], i + 1, t);
      assert (s[..v.length] + t)[1..] == s[1..][..v.length - 1] + t;
      var w := DecodeFrom(s[1..], i + 1).value;
      assert v.value >= 128 ==> v.value / 128 == w.value;
    }
  }

  lemma {:induction false} DecodeFacts(s: seq<byte>, t: seq<byte>)
    requires Decode(s).Ok?
    ensures var v := Decode(s).value;
            0 < v.length <= |s| && v.value < U64 && |Encode(v.value)| <= v.length &&
            Decode(s[..v.length] + t) == Ok(v)
  {
    LimitIsU64();
    DecodeFromFacts(s, 0, t);
  }

  lemma {:induction false} EncodeMonotone(a: nat, b: nat)
    requires a <= b
    ensures |Encode(a)| <= |Encode(b)|
    decreases b
  {
    if b >= 128 && a >= 128 {
      EncodeMonotone(a / 128, b / 128);
    }
  }

  // ----- Fields

  /** One field.  `value` is used by varints, `payload` by length-delimited fields; `raw` is the
      bytes of the field as they stood in the message. */
  datatype Field = Field(key: nat, value: nat, payload: seq<byte>, raw: seq<byte>)
  {
    /** The field number is cut to 32 bits when it is stored. */
    function Number(): nat { (key / 8) % U32 }

    function WireType(): nat { key % 8 }
  }

  /** What follows the key of a field, and how many bytes it takes. */
  datatype Body = Body(value: nat, payload: seq<byte>, length: nat)

  function VarintBody(s: seq<byte>): Result<Body> {
    var v :- Decode(s);
    Ok(Body(v.value, [], v.length))
  }

  function FixedBody(s: seq<byte>, width: nat): Result<Body> {
    if |s| < width then Err(BadMessage) else Ok(Body(0, [], width))
  }

  function DelimitedBody(s: seq<byte>): Result<Body> {
    var n :- Decode(s);
    DecodeFacts(s, []);
    if n.value > |s| - n.length then Err(BadMessage)
    else Ok(Body(0, s[n.length..n.length + n.value], n.length + n.value))
  }

  function BodyOf(wireType: nat, s: seq<byte>): Result<Body> {
    match wireType
    case 0 => VarintBody(s)
    case 1 => FixedBody(s, 8)
    case 2 => DelimitedBody(s)
    case 5 => FixedBody(s, 4)
    case _ => Err(BadWireType)
  }

  lemma {:induction false} DelimitedFacts(s: seq<byte>, t: seq<byte>)
    requires DelimitedBody(s).Ok?
    ensures var b := DelimitedBody(s).value;
            b.length <= |s| && |b.payload| <= b.length && |b.payload| < U64 &&
            DelimitedBody(s[..b.length] + t) == Ok(b)
  {
    var n := Decode(s).value;
    DecodeFacts(s, []);
    DelimitedIs(s, n);
    var end := n.length + n.value;
    DecodeFacts(s, s[n.length..end] + t);
    Regroup(s, n.length, end, t);
    DelimitedIs(s[..end] + t, n);
  }

  lemma {:induction false} DelimitedIs(s: seq<byte>, n: Varint)
    requires Decode(s) == Ok(n) && n.length + n.value <= |s|
    ensures DelimitedBody(s) == Ok(Body(0, s[n.length..n.length + n.value], n.length + n.value))
  {
  }

  /** A front with something else put behind, taken apart at `n`. */
  lemma {:induction false} Regroup(s: seq<byte>, n: nat, m: nat, t: seq<byte>)
    requires n <= m <= |s|
    ensures s[..m] + t == s[..n] + (s[n..m] + t)
    ensures (s[..m] + t)[n..m] == s[n..m] && (s[..m] + t)[n..] == s[n..m] + t && (s[..m] + t)[..m] == s[..m]
  {
  }

  lemma {:induction false} BodyFacts(wireType: nat, s: seq<byte>, t: seq<byte>)
    requires BodyOf(wireType, s).Ok?
    ensures var b := BodyOf(wireType, s).value;
            b.length <= |s| && |b.payload| <= b.length && |b.payload| < U64 && b.value < U64 &&
            BodyOf(wireType, s[..b.length] + t) == Ok(b)
  {
    if wireType == 0 {
      DecodeFacts(s, t);
    } else if wireType == 2 {
      DelimitedFacts(s, t);
    }
  }

  /** next_field */
  function NextField(s: seq<byte>): Result<Field> {
    var k :- Decode(s);
    DecodeFacts(s, []);
    FieldAfter(s, k)
  }

  /** The rest of next_field, behind the key. */
  function FieldAfter(s: seq<byte>, k: Varint): Result<Field>
    requires k.length <= |s|
  {
    if k.value == 0 then Err(BadMessage)
    else
      var b :- BodyOf(k.value % 8, s[k.length..]);
      BodyFacts(k.value % 8, s[k.length..], []);
      Ok(Field(k.value, b.value, b.payload, s[..k.length + b.length]))
  }

  /** A key and a body in front of a message make its first field. */
  lemma {:induction false} FieldFrom(s: seq<byte>, k: Varint, b: Body)
    requires Decode(s) == Ok(k) && k.value != 0
    requires k.length <= |s| && BodyOf(k.value % 8, s[k.length..]) == Ok(b) && b.length <= |s| - k.length
    ensures NextField(s) == Ok(Field(k.value, b.value, b.payload, s[..k.length + b.length]))
  {
    NextFieldIs(s, k);
    FieldAfterIs(s, k, b);
  }

  lemma {:induction false} FieldAfterFacts(s: seq<byte>, k: Varint, t: seq<byte>)
    requires k.length <= |s| && FieldAfter(s, k).Ok?
    ensures var f := FieldAfter(s, k).value;
            k.length <= |f.raw| <= |s| && f.raw == s[..|f.raw|] && f.key == k.value != 0 && f.value < U64 &&
            |f.payload| <= |f.raw| && |f.payload| < U64 && FieldAfter(f.raw + t, k) == Ok(f)
  {
    var tail := s[k.length..];
    var b := BodyOf(k.value % 8, tail).value;
    BodyFacts(k.value % 8, tail, t);
    FieldAfterIs(s, k, b);
    var end := k.length + b.length;
    Regroup(s, k.length, end, t);
    assert s[k.length..end] == tail[..b.length];
    assert (s[..end] + t)[k.length..] == tail[..b.length] + t;
    FieldAfterIs(s[..end] + t, k, b);
  }

  lemma {:induction false} FieldAfterIs(s: seq<byte>, k: Varint, b: Body)
    requires k.value != 0 && k.length <= |s| && BodyOf(k.value % 8, s[k.length..]) == Ok(b)
    requires b.length <= |s| - k.length
    ensures FieldAfter(s, k) == Ok(Field(k.value, b.value, b.payload, s[..k.length + b.length]))
  {
  }

  /** A field found at the front of `s` is found at the front of its own bytes, whatever follows. */
  lemma {:induction false} NextFieldFacts(s: seq<byte>, t: seq<byte>)
    requires NextField(s).Ok?
    ensures var f := NextField(s).value;
            0 < |f.raw| <= |s| && f.raw == s[..|f.raw|] && 0 < f.key < U64 && f.value < U64 &&
            |f.payload| <= |f.raw| && |f.payload| < U64 && NextField(f.raw + t) == Ok(f)
  {
    var k, f := Decode(s).value, NextField(s).value;
    NextFieldIs(s, k);
    FieldAfterFacts(s, k, t);
    DecodeFacts(s, s[k.length..|f.raw|] + t);
    Regroup(s, k.length, |f.raw|, t);
    NextFieldIs(f.raw + t, k);
  }

  lemma {:induction false} NextFieldIs(s: seq<byte>, k: Varint)
    requires Decode(s) == Ok(k)
    ensures 0 < k.length <= |s| && NextField(s) == FieldAfter(s, k)
  {
    DecodeFacts(s, []);
  }

  /** The fields of a whole message. */
  function ParseFields(s: seq<byte>): Result<seq<Field>>
    decreases |s|
  {
    if s == [] then Ok([])
    else
      var f :- NextField(s);
      NextFieldFacts(s, []);
      var fs :- ParseFields(s[|f.raw|..]);
      Ok([f] + fs)
  }

  function Raws(fs: seq<Field>): seq<byte> {
    if fs == [] then [] else fs[0].raw + Raws(fs[1..])
  }

  /** Putting a field in front of a message puts it in front of the parse. */
  lemma {:induction false} ParseCons(f: Field, s: seq<byte>)
    requires f.raw != [] && NextField(f.raw + s) == Ok(f)
    ensures ParseFields(f.raw + s) == Prepend(f, ParseFields(s))
  {
    assert (f.raw + s)[|f.raw|..] == s;
  }

  function Prepend(f: Field, r: Result<seq<Field>>): Result<seq<Field>> {
    match r case Ok(fs) => Ok([f] + fs) case Err(e) => Err(e)
  }

  /** A message that parses starts with a field that parses in front of anything. */
  lemma {:induction false} ParseHead(a: seq<byte>) returns (f: Field, rest: seq<byte>)
    requires a != [] && ParseFields(a).Ok?
    ensures f.raw != [] && a == f.raw + rest && ParseFields(rest).Ok?
    ensures ParseFields(a).value == [f] + ParseFields(rest).value
    ensures NextField(a) == Ok(f)
  {
    f := NextField(a).value;
    NextFieldFacts(a, []);
    rest := a[|f.raw|..];
  }

  /** Messages written one after the other parse to their fields one after the other. */
  lemma {:induction false} ParseConcat(a: seq<byte>, b: seq<byte>)
    requires ParseFields(a).Ok? && ParseFields(b).Ok?
    ensures ParseFields(a + b) == Ok(ParseFields(a).value + ParseFields(b).value)
    decreases |a|
  {
    if a == [] {
      assert a + b == b && [] + ParseFields(b).value == ParseFields(b).value;
    } else {
      var f, rest := ParseHead(a);
      ParseConcat(rest, b);
      NextFieldFacts(a, rest + b);
      ParseCons(f, rest + b);
      Associate(f, rest, b, ParseFields(rest).value, ParseFields(b).value);
    }
  }

  lemma {:induction false} Associate(f: Field, rest: seq<byte>, b: seq<byte>, fs: seq<Field>, gs: seq<Field>)
    ensures f.raw + (rest + b) == (f.raw + rest) + b
    ensures [f] + (fs + gs) == ([f] + fs) + gs
  {
  }

  /** A parse partitions the message exactly, and every field stands on its own. */
  lemma {:induction false} ParsePartitions(s: seq<byte>)
    requires ParseFields(s).Ok?
    ensures Raws(ParseFields(s).value) == s
    ensures forall i :: 0 <= i < |ParseFields(s).value| ==> Standalone(ParseFields(s).value[i])
    decreases |s|
  {
    if s != [] {
      var f := NextField(s).value;
      NextFieldFacts(s, []);
      assert f.raw + [] == f.raw;
      ParsePartitions(s[|f.raw|..]);
    }
  }

  ghost predicate Standalone(f: Field) {
    f.raw != [] && NextField(f.raw) == Ok(f)
  }

  /** The first field of a message, split off. */
  lemma {:induction false} SplitHead(s: seq<byte>)
    requires NextField(s).Ok?
    ensures var f := NextField(s).value;
            Standalone(f) && |f.raw| <= |s| && s == f.raw + s[|f.raw|..]
  {
    var f := NextField(s).value;
    NextFieldFacts(s, []);
    assert f.raw + [] == f.raw;
  }
}
