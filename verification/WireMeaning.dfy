/** What the parser accepts, told from the bytes alone. */
module WireMeaning {
  import opened Wrappers
  import opened Bits
  import opened Wire
  import opened TrimPacket
  import opened ProtoWriter

  /** The first `n` bytes are a varint: at most ten, only the last without the continuation bit, and at
      most one bit in the tenth. */
  ghost predicate VarintOf(s: seq<byte>, n: nat) {
    1 <= n <= 10 && n <= |s| && s[n - 1] < 128 && (forall i :: 0 <= i < n - 1 ==> s[i] >= 128) &&
    (n == 10 ==> s[9] <= 1)
  }

  ghost function Power128(n: nat): nat {
    if n == 0 then 1 else 128 * Power128(n - 1)
  }

  /** The number the bytes stand for: seven bits a byte, those of the first byte lowest. */
  ghost function ValueOf(s: seq<byte>): nat {
    if s == [] then 0 else ValueOf(s[..|s| - 1]) + s[|s| - 1] % 128 * Power128(|s| - 1)
  }

  lemma {:induction false} Commute(a: nat, b: nat)
    ensures a * (128 * b) == 128 * (a * b)
  {
  }

  lemma {:induction false} ValueSplits(s: seq<byte>)
    requires s != []
    ensures ValueOf(s) == s[0] % 128 + 128 * ValueOf(s[1..])
  {
    var n := |s| - 1;
    if n > 0 {
      ValueSplits(s[..n]);
      assert s[..n][1..] == s[1..][..n - 1];
      Commute(s[n] % 128, Power128(n - 1));
    } else {
      assert ValueOf(s[..0]) == 0 && s[1..] == [];
    }
  }

  /** The same, for a varint whose first `i` bytes are already read. */
  ghost predicate VarintFrom(s: seq<byte>, i: nat, n: nat) {
    1 <= n <= 10 - i && n <= |s| && s[n - 1] < 128 && (forall j :: 0 <= j < n - 1 ==> s[j] >= 128) &&
    (n == 10 - i ==> s[n - 1] <= 1)
  }

  lemma {:induction false} VarintShifts(s: seq<byte>, i: nat, n: nat)
    requires i < 10 && s != [] && s[0] >= 128
    ensures VarintFrom(s, i, n + 1) <==> VarintFrom(s[1..], i + 1, n)
  {
    if VarintFrom(s, i, n + 1) {
      assert n > 0 && s[1..][n - 1] == s[n];
      assert forall j :: 0 <= j < n - 1 ==> s[1..][j] == s[j + 1];
    }
    if VarintFrom(s[1..], i + 1, n) {
      assert s[1..][n - 1] == s[n];
      assert forall j :: 1 <= j < n ==> s[j] == s[1..][j - 1];
    }
  }

  lemma {:induction false} DecodeFromExactly(s: seq<byte>, i: nat, n: nat)
    requires i <= 10
    ensures VarintFrom(s, i, n) <==> DecodeFrom(s, i).Ok? && DecodeFrom(s, i).value.length == n
    ensures VarintFrom(s, i, n) ==> DecodeFrom(s, i).value.value == ValueOf(s[..n])
    decreases 10 - i
  {
    if i < 10 && s != [] && s[0] < 128 {
      assert VarintFrom(s, i, n) ==> n == 1;
      ValueSplits(s[..1]);
    } else if i < 9 && s != [] {
      if n > 0 {
        VarintShifts(s, i, n - 1);
        DecodeFromExactly(s[1..], i + 1, n - 1);
        if VarintFrom(s, i, n) {
          ValueSplits(s[..n]);
          assert s[..n][1..] == s[1..][..n - 1];
        }
      } else if DecodeFrom(s[1..], i + 1).Ok? {
        DecodeFromFacts(s[1..], i + 1, []);
      }
    }
  }

  /** Decoding succeeds exactly on a varint, with the number its bytes stand for. */
  lemma {:induction false} DecodeExactly(s: seq<byte>, n: nat)
    ensures VarintOf(s, n) <==> Decode(s).Ok? && Decode(s).value.length == n
    ensures VarintOf(s, n) ==> Decode(s).value.value == ValueOf(s[..n])
  {
    DecodeFromExactly(s, 0, n);
  }

  ghost predicate StartsWithVarint(s: seq<byte>) {
    exists n: nat :: VarintOf(s, n)
  }

  lemma {:induction false} DecodesExactly(s: seq<byte>)
    ensures Decode(s) == Err(BadMessage) || StartsWithVarint(s)
    ensures StartsWithVarint(s) ==> Decode(s).Ok?
  {
    if Decode(s).Ok? {
      DecodeExactly(s, Decode(s).value.length);
    } else {
      DecodeErr(s, 0);
    }
    if n: nat :| VarintOf(s, n) {
      DecodeExactly(s, n);
    }
  }

  lemma {:induction false} DecodeErr(s: seq<byte>, i: nat)
    requires i <= 10 && DecodeFrom(s, i).Err?
    ensures DecodeFrom(s, i) == Err(BadMessage)
    decreases 10 - i
  {
    if !(i == 10 || s == [] || (i == 9 && s[0] > 1)) {
      DecodeErr(s[1..], i + 1);
    }
  }

  /** All of these bytes are one varint and stand for `v`. */
  ghost predicate Spells(h: seq<byte>, v: nat) {
    VarintOf(h, |h|) && ValueOf(h) == v
  }

  lemma {:induction false} SpelledDecodes(h: seq<byte>, v: nat, t: seq<byte>)
    requires Spells(h, v)
    ensures Decode(h + t) == Ok(Varint(v, |h|))
  {
    var s := h + t;
    assert s[..|h|] == h;
    assert forall i :: 0 <= i < |h| ==> s[i] == h[i];
    assert VarintOf(s, |h|);
    DecodeExactly(s, |h|);
  }

  /** Wire type 0: behind its key a field has a varint. */
  lemma {:induction false} NumbersExactly(h: seq<byte>, key: nat, d: seq<byte>, v: nat, t: seq<byte>)
    requires Spells(h, key) && key != 0 && key % 8 == 0 && Spells(d, v)
    ensures NextField(h + d + t) == Ok(Field(key, v, [], h + d))
  {
    SpelledDecodes(h, key, d + t);
    SpelledDecodes(d, v, t);
    TwoPieces(h, d, t);
    FieldFrom(h + d + t, Varint(key, |h|), Body(v, [], |d|));
  }

  /** Wire type 2: a length and that many bytes. */
  lemma {:induction false} LengthsExactly(h: seq<byte>, key: nat, d: seq<byte>, p: seq<byte>, t: seq<byte>)
    requires Spells(h, key) && key != 0 && key % 8 == 2 && Spells(d, |p|)
    ensures NextField(h + d + p + t) == Ok(Field(key, 0, p, h + d + p))
  {
    SpelledDecodes(h, key, d + p + t);
    SpelledDecodes(d, |p|, p + t);
    DelimitedPieces(h, d, p, t);
    FieldFrom(h + d + p + t, Varint(key, |h|), Body(0, p, |d| + |p|));
  }

  /** Wire types 1 and 5: eight or four bytes. */
  lemma {:induction false} WidthsExactly(h: seq<byte>, key: nat, p: seq<byte>, t: seq<byte>)
    requires Spells(h, key) && ((key % 8 == 1 && |p| == 8) || (key % 8 == 5 && |p| == 4))
    ensures NextField(h + p + t) == Ok(Field(key, 0, [], h + p))
  {
    SpelledDecodes(h, key, p + t);
    TwoPieces(h, p, t);
    FieldFrom(h + p + t, Varint(key, |h|), Body(0, [], |p|));
  }

  lemma {:induction false} FailsBehindKey(h: seq<byte>, key: nat, t: seq<byte>, e: Error)
    requires Spells(h, key) && key != 0 && BodyOf(key % 8, t) == Err(e)
    ensures NextField(h + t) == Err(e)
  {
    SpelledDecodes(h, key, t);
    assert (h + t)[|h|..] == t;
    NextFieldIs(h + t, Varint(key, |h|));
  }

  /** Everything else is refused: a message that starts with no varint or with zero, another wire type,
      fewer bytes than a fixed width asks for, and a varint or bytes that are not there. */
  lemma {:induction false} RefusedExactly(h: seq<byte>, key: nat, t: seq<byte>)
    requires Spells(h, key)
    ensures var r := NextField(h + t);
            (key == 0 ==> r == Err(BadMessage)) &&
            (key != 0 && key % 8 !in {0, 1, 2, 5} ==> r == Err(BadWireType)) &&
            (key % 8 == 1 && |t| < 8 ==> r == Err(BadMessage)) &&
            (key % 8 == 5 && |t| < 4 ==> r == Err(BadMessage)) &&
            (key % 8 in {0, 2} && !StartsWithVarint(t) ==> r == Err(BadMessage))
  {
    SpelledDecodes(h, key, t);
    NextFieldIs(h + t, Varint(key, |h|));
    DecodesExactly(t);
    if key != 0 && BodyOf(key % 8, t).Err? {
      FailsBehindKey(h, key, t, BodyOf(key % 8, t).error);
    }
  }

  lemma {:induction false} TooLongIsRefused(h: seq<byte>, key: nat, d: seq<byte>, size: nat, t: seq<byte>)
    requires Spells(h, key) && key % 8 == 2 && Spells(d, size) && |t| < size
    ensures NextField(h + (d + t)) == Err(BadMessage)
  {
    SpelledDecodes(d, size, t);
    FailsBehindKey(h, key, d + t, BadMessage);
  }

  lemma {:induction false} NoKeyNoField(s: seq<byte>)
    requires !StartsWithVarint(s)
    ensures NextField(s) == Err(BadMessage)
  {
    DecodesExactly(s);
  }
}
