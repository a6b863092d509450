/** The byte ring of the capture queue and the two critical sections that use it. */
module CaptureRing {
  import opened Bits
  import opened QueueRecords

  /** The producer's test, on the records already in the ring. */
  predicate Accepts(capacity: nat, pending: seq<Record>, r: Record) {
    r.Size() <= MAX_SAMPLE_BYTES && HEADER_BYTES + r.Size() <= capacity - Used(pending)
  }

  /** A position at most one turn past the end of a buffer of `n` bytes. */
  function Wrap(x: nat, n: nat): (r: nat)
    requires x < 2 * n
    ensures r < n
  {
    if x < n then x else x - n
  }

  lemma {:induction false} WrapIsModulo(x: nat, n: nat)
    requires 0 < n && x < 2 * n
    ensures x % n == Wrap(x, n)
  {
    if x >= n { assert x == n + (x - n); }
  }

  /** The `used` bytes from `tail` on, wrapping at the end of the buffer. */
  ghost function Window(buffer: seq<byte>, tail: nat, used: nat): (r: seq<byte>)
    requires tail < |buffer| && used <= |buffer|
    ensures |r| == used && forall i :: 0 <= i < used ==> r[i] == buffer[Wrap(tail + i, |buffer|)]
  {
    seq(used, i requires 0 <= i < used => buffer[Wrap(tail + i, |buffer|)])
  }

  /** Two copies starting where the window ends append to it. */
  lemma {:induction false} WindowGrows(
      before: seq<byte>, after: seq<byte>, tail: nat, used: nat, head: nat, first: nat, bytes: seq<byte>)
    requires tail < |before| == |after| && used + |bytes| <= |before| && head == Wrap(tail + used, |before|)
    requires first <= |bytes| && head + first <= |before| && (first < |bytes| ==> head + first == |before|)
    requires forall i :: 0 <= i < first ==> after[head + i] == bytes[i]
    requires forall i :: 0 <= i < |bytes| - first ==> after[i] == bytes[first + i]
    requires forall j :: |bytes| - first <= j < |before| && !(head <= j < head + first) ==> after[j] == before[j]
    ensures Window(after, tail, used + |bytes|) == Window(before, tail, used) + bytes
  {
    var n := |before|;
    forall i | 0 <= i < used + |bytes|
      ensures after[Wrap(tail + i, n)] == (Window(before, tail, used) + bytes)[i]
    {
      if i >= used {
        var k := i - used;
        assert Wrap(tail + i, n) == if k < first then head + k else k - first;
        assert bytes[k] == if k < first then bytes[k] else bytes[first + (k - first)];
      }
    }
  }

  /** Two copies from where the window starts are its front; the rest starts where they end. */
  lemma {:induction false} WindowShrinks(buffer: seq<byte>, tail: nat, used: nat, size: nat, first: nat)
    requires tail < |buffer| && size <= used <= |buffer|
    requires first <= size && tail + first <= |buffer| && (first < size ==> tail + first == |buffer|)
    ensures buffer[tail..tail + first] + buffer[..size - first] == Window(buffer, tail, used)[..size]
    ensures Window(buffer, Wrap(tail + size, |buffer|), used - size) == Window(buffer, tail, used)[size..]
  {
  }

  /** Where the parts of the record at the front lie. */
  lemma {:induction false} FrontParts(header: seq<byte>, sample: seq<byte>, rest: seq<byte>)
    requires |header| == HEADER_BYTES
    ensures var bytes := header + sample + rest;
            bytes[..HEADER_BYTES] == header && bytes[HEADER_BYTES..] == sample + rest &&
            (sample + rest)[..|sample|] == sample && (sample + rest)[|sample|..] == rest
  {
  }

  class Ring {
    const data: array<byte>
    const capacity: nat
    var head: nat
    var tail: nat
    var used: nat
    var dropped: nat
    var kernelLost: nat
    ghost var pending: seq<Record>

    ghost predicate Valid()
      reads this
    {
      capacity == data.Length && 0 < capacity && tail < capacity && used <= capacity &&
      head == Wrap(tail + used, capacity)
    }

    /** The bytes in the ring, oldest first. */
    ghost function Contents(): seq<byte>
      requires Valid()
      reads this, data
    {
      Window(data[..], tail, used)
    }

    /** The bytes in the ring are the records of the FIFO `pending`, end to end. */
    ghost predicate Holds()
      reads this, data
    {
      Valid() && AllRepresentable(pending) && Contents() == EncodeAll(pending)
    }

    constructor (capacity: nat)
      requires 0 < capacity
      ensures Holds() && this.capacity == capacity && pending == [] && fresh(data)
      ensures dropped == 0 && kernelLost == 0
    {
      this.capacity := capacity;
      data := new byte[capacity](_ => 0);
      head, tail, used, dropped, kernelLost := 0, 0, 0, 0, 0;
      pending := [];
    }

    /** queue_write: two copies, the second one wrapping to the start of the buffer. */
    method Write(bytes: seq<byte>)
      requires Valid() && |bytes| <= capacity - used
      modifies this`head, this`used, data
      ensures Valid() && Contents() == old(Contents()) + bytes
    {
      var size := |bytes|;
      var first := capacity - head;
      if first > size {
        first := size;
      }
      forall i | 0 <= i < first {
        data[head + i] := bytes[i];
      }
      forall i | 0 <= i < size - first {
        data[i] := bytes[first + i];
      }
      WindowGrows(old(data[..]), data[..], tail, used, head, first, bytes);
      WrapIsModulo(head + size, capacity);
      head := (head + size) % capacity;
      used := used + size;
    }

    /** queue_read */
    method Read(size: nat) returns (bytes: seq<byte>)
      requires Valid() && size <= used
      modifies this`tail, this`used
      ensures Valid() && bytes == old(Contents())[..size] && Contents() == old(Contents())[size..]
    {
      var first := capacity - tail;
      if first > size {
        first := size;
      }
      bytes := data[tail..tail + first] + data[..size - first];
      WindowShrinks(data[..], tail, used, size, first);
      WrapIsModulo(tail + size, capacity);
      tail := (tail + size) % capacity;
      used := used - size;
    }

    /** Header and sample, end to end. */
    method WriteRecord(r: Record)
      requires Valid() && r.Representable() && HEADER_BYTES + r.Size() <= capacity - used
      modifies this`head, this`used, data
      ensures Valid() && Contents() == old(Contents()) + Encode(r)
    {
      ghost var before := Contents();
      var header := Header(r);
      Write(header);
      if r.Size() > 0 {
        Write(r.sample);
        Associative(before, header, r.sample);
      }
    }

    /** Append a record that fits to the bytes and so to the FIFO. */
    method Accept(r: Record)
      requires Holds() && r.Representable() && HEADER_BYTES + r.Size() <= capacity - used
      modifies this`head, this`used, this`pending, data
      ensures Holds() && pending == old(pending) + [r]
    {
      EncodeAllAppend(pending, r);
      WriteRecord(r);
      pending := pending + [r];
    }

    /** Count a record that does not fit. */
    method Refuse(r: Record)
      modifies this`dropped, this`kernelLost
      ensures kernelLost == old(kernelLost) + r.LostCount()
      ensures dropped == old(dropped) + if r.Event? then 1 else 0
    {
      if r.Loss? {
        kernelLost := kernelLost + r.lost;
      } else {
        dropped := dropped + 1;
      }
    }

    /** The ring uses as many bytes as the records in it need. */
    lemma {:induction false} UsedByPending()
      requires Holds()
      ensures used == Used(pending) && (used == 0 <==> pending == [])
    {
      EncodeAllLength(pending);
    }

    /** capture_queue_push, inside the lock: append the record to the FIFO or refuse and count it.
        The worker is signalled only when the ring was empty. */
    method Push(r: Record) returns (signal: bool, ghost taken: bool)
      requires Holds() && r.Representable()
      modifies this`head, this`used, this`pending, this`dropped, this`kernelLost, data
      ensures Holds() && taken == Accepts(capacity, old(pending), r)
      ensures taken <==> r.Size() <= 65536 && 16 + r.Size() <= capacity - old(used)
      ensures if taken
              then pending == old(pending) + [r] && signal == (old(pending) == []) &&
                   dropped == old(dropped) && kernelLost == old(kernelLost)
              else pending == old(pending) && !signal &&
                   kernelLost == old(kernelLost) + r.LostCount() &&
                   dropped == old(dropped) + if r.Event? then 1 else 0
    {
      UsedByPending();
      signal, taken := false, Accepts(capacity, pending, r);
      if r.Size() > MAX_SAMPLE_BYTES || HEADER_BYTES + r.Size() > capacity - used {
        Refuse(r);
      } else {
        signal := used == 0;
        Accept(r);
      }
    }

    /** The record at the front comes out whole, whatever the wrap position. */
    method ReadRecord(ghost expected: Record, ghost rest: seq<byte>) returns (r: Record)
      requires Valid() && expected.Representable() && Contents() == Encode(expected) + rest
      modifies this`tail, this`used
      ensures Valid() && r == expected && Contents() == rest
    {
      FrontParts(Header(expected), if expected.Event? then expected.sample else [], rest);
      var header := Read(HEADER_BYTES);
      HeaderRoundTrip(expected);
      var size := HeaderSize(header);
      var sample := [];
      if size > 0 {
        sample := Read(size);
      }
      r := Decode(header, sample);
    }

    /** The worker's critical section when the ring is not empty. */
    method Take() returns (r: Record)
      requires Holds() && used != 0
      modifies this`tail, this`used, this`pending
      ensures Holds() && old(pending) != [] && r == old(pending)[0] && pending == old(pending)[1..]
    {
      r := ReadRecord(pending[0], EncodeAll(pending[1..]));
      pending := pending[1..];
    }
  }
}
