/** The traffic history itself: records in order of creation, found through an open-addressing index
    with linear probing, proved equal to the table of TrafficRecords that looks keys up by meaning. */
module TrafficIndex {
  import opened Wrappers
  import opened Bits
  import opened TrafficRecords

  /** FNV-1a over the bytes of a key. */
  function Hash(key: seq<byte>): nat {
    if key == [] then 14695981039346656037
    else (Xor(Hash(key[..|key| - 1]), key[|key| - 1]) * 1099511628211) % U64
  }

  /** The slot `d` places after `home`, wrapping once. */
  function Probe(home: nat, d: nat, size: nat): (r: nat)
    requires home < size && d <= size
    ensures r < size
  {
    if home + d < size then home + d else home + d - size
  }

  /** The low bits of a hash: `h & (size - 1)` for a power of two. */
  function Mask(h: nat, size: nat): (r: nat)
    requires 0 < size
    ensures r < size
  {
    if size == 1 then 0 else h % 2 + 2 * Mask(h / 2, size / 2)
  }

  function Home(key: seq<byte>, size: nat): (r: nat)
    requires 0 < size
    ensures r < size
  {
    Mask(Hash(key), size)
  }

  ghost predicate PowerOfTwo(n: nat) {
    n == 1 || (n > 1 && n % 2 == 0 && PowerOfTwo(n / 2))
  }

  // ----- The index represents the keys

  /** `at` gives the slot of every record and `steps` how far that slot is from home. */
  datatype Layout = Layout(at: seq<nat>, steps: seq<nat>)

  ghost predicate SlotsPoint(index: seq<nat>, n: nat, l: Layout) {
    |l.at| == |l.steps| == n &&
    (forall i :: 0 <= i < n ==> l.at[i] < |index| && l.steps[i] < |index| && index[l.at[i]] == i + 1) &&
    (forall s :: 0 <= s < |index| && index[s] != 0 ==> index[s] <= n && l.at[index[s] - 1] == s)
  }

  /** Every slot from `home` up to `at` is taken. */
  ghost predicate Reachable(index: seq<nat>, home: nat, at: nat, steps: nat) {
    home < |index| && steps < |index| && at == Probe(home, steps, |index|) &&
    forall d :: 0 <= d < steps ==> index[Probe(home, d, |index|)] != 0
  }

  ghost predicate KeysDistinct(records: seq<Record>) {
    forall i, j :: 0 <= i < j < |records| ==> records[i].key != records[j].key
  }

  ghost predicate Represents(index: seq<nat>, records: seq<Record>, l: Layout) {
    SlotsPoint(index, |records|, l) && KeysDistinct(records) &&
    forall i :: 0 <= i < |records| ==>
      0 < |index| && Reachable(index, Home(records[i].key, |index|), l.at[i], l.steps[i])
  }

  // ----- There is always a free slot

  ghost function Below(n: nat): (r: set<nat>)
    ensures |r| == n && forall x: nat :: x in r <==> x < n
  {
    if n == 0 then {} else Below(n - 1) + {n - 1}
  }

  ghost function Elements(a: seq<nat>): (r: set<nat>)
    ensures |r| <= |a| && forall x :: x in r <==> x in a
  {
    if a == [] then {} else Elements(a[..|a| - 1]) + {a[|a| - 1]}
  }

  lemma {:induction false} AllTaken(index: seq<nat>, n: nat, l: Layout)
    requires SlotsPoint(index, n, l) && forall s :: 0 <= s < |index| ==> index[s] != 0
    ensures |index| <= n
  {
    forall s | s in Below(|index|) ensures s in Elements(l.at) {
      assert l.at[index[s] - 1] == s;
    }
    SubsetSize(Below(|index|), Elements(l.at));
  }

  /** More slots than records leave one free. */
  lemma {:induction false} FreeSlotExists(index: seq<nat>, n: nat, l: Layout)
    requires SlotsPoint(index, n, l) && n < |index|
    ensures exists s :: 0 <= s < |index| && index[s] == 0
  {
    if forall s :: 0 <= s < |index| ==> index[s] != 0 {
      AllTaken(index, n, l);
    }
  }

  lemma {:induction false} SubsetSize(a: set<nat>, b: set<nat>)
    requires a <= b
    ensures |a| <= |b|
  {
    assert b == a + (b - a);
  }

  /** Probing once around visits every slot, so it meets a free one before it is done. */
  lemma {:induction false} ProbeStops(index: seq<nat>, home: nat, k: nat, n: nat, l: Layout)
    requires SlotsPoint(index, n, l) && n < |index| && home < |index| && k <= |index|
    requires forall d :: 0 <= d < k ==> index[Probe(home, d, |index|)] != 0
    ensures k < |index|
  {
    FreeSlotExists(index, n, l);
    var s :| 0 <= s < |index| && index[s] == 0;
    var d := if s >= home then s - home else s + |index| - home;
    assert Probe(home, d, |index|) == s;
  }

  // ----- What probing proves

  /** All slots before the `k`-th hold other keys. */
  ghost predicate Passed(index: seq<nat>, records: seq<Record>, key: seq<byte>, home: nat, k: nat)
    requires home < |index| && k <= |index|
  {
    forall d :: 0 <= d < k ==> PassedAt(index, records, key, home, d)
  }

  ghost predicate PassedAt(index: seq<nat>, records: seq<Record>, key: seq<byte>, home: nat, d: nat)
    requires home < |index| && d <= |index|
  {
    var e := index[Probe(home, d, |index|)];
    0 < e <= |records| && records[e - 1].key != key
  }

  lemma {:induction false} PassedIsTaken(index: seq<nat>, records: seq<Record>, key: seq<byte>, home: nat, k: nat)
    requires home < |index| && k <= |index| && Passed(index, records, key, home, k)
    ensures forall d :: 0 <= d < k ==> index[Probe(home, d, |index|)] != 0
  {
    forall d | 0 <= d < k ensures index[Probe(home, d, |index|)] != 0 {
      assert PassedAt(index, records, key, home, d);
    }
  }

  /** Passing one more slot leaves a slot to look at, the next one. */
  lemma {:induction false} ProbeOn(index: seq<nat>, records: seq<Record>, l: Layout, key: seq<byte>, home: nat, k: nat)
    requires SlotsPoint(index, |records|, l) && |records| < |index| && home < |index| && k < |index|
    requires Passed(index, records, key, home, k) && PassedAt(index, records, key, home, k)
    ensures k + 1 < |index| && Passed(index, records, key, home, k + 1)
    ensures var slot := Probe(home, k, |index|);
            Probe(home, k + 1, |index|) == if slot + 1 == |index| then 0 else slot + 1
  {
    PassedIsTaken(index, records, key, home, k + 1);
    ProbeStops(index, home, k + 1, |records|, l);
  }

  /** What is stored was reached before any free slot. */
  lemma {:induction false} StoredBeforeFree(index: seq<nat>, home: nat, at: nat, steps: nat, k: nat)
    requires Reachable(index, home, at, steps) && index[at] != 0
    requires k < |index| && index[Probe(home, k, |index|)] == 0
    ensures steps < k
  {
  }

  /** A record whose home this is was passed, so that it has another key. */
  lemma {:induction false} PassedRecord(
      index: seq<nat>, records: seq<Record>, l: Layout, key: seq<byte>, home: nat, k: nat, i: nat)
    requires SlotsPoint(index, |records|, l) && i < |records| && Reachable(index, home, l.at[i], l.steps[i])
    requires k < |index| && Passed(index, records, key, home, k) && index[Probe(home, k, |index|)] == 0
    ensures records[i].key != key
  {
    StoredBeforeFree(index, home, l.at[i], l.steps[i], k);
    assert PassedAt(index, records, key, home, l.steps[i]);
  }

  /** A free slot on the way proves that the key is not stored at all. */
  lemma {:induction false} FreeSlotMeansAbsent(
      index: seq<nat>, records: seq<Record>, l: Layout, key: seq<byte>, k: nat)
    requires Represents(index, records, l) && k < |index| && Passed(index, records, key, Home(key, |index|), k)
    requires index[Probe(Home(key, |index|), k, |index|)] == 0
    ensures IndexOf(records, key).None?
  {
    var home := Home(key, |index|);
    forall i | 0 <= i < |records| ensures records[i].key != key {
      if Reachable(index, home, l.at[i], l.steps[i]) {
        PassedRecord(index, records, l, key, home, k, i);
      }
    }
  }

  lemma {:induction false} FoundIsIndexOf(records: seq<Record>, key: seq<byte>, i: nat)
    requires KeysDistinct(records) && i < |records| && records[i].key == key
    ensures IndexOf(records, key) == Some(i)
  {
  }

  /** Entering a new key in the free slot where its probing ended keeps the index right. */
  lemma {:induction false} EnterKeepsIndex(
      index: seq<nat>, records: seq<Record>, l: Layout, key: seq<byte>, k: nat, rec: Record)
    requires Represents(index, records, l) && k < |index| && Passed(index, records, key, Home(key, |index|), k)
    requires index[Probe(Home(key, |index|), k, |index|)] == 0
    requires rec.key == key && IndexOf(records, key).None?
    ensures var slot := Probe(Home(key, |index|), k, |index|);
            Represents(index[slot := |records| + 1], records + [rec], Layout(l.at + [slot], l.steps + [k]))
  {
    var slot := Probe(Home(key, |index|), k, |index|);
    var index', records', l' := index[slot := |records| + 1], records + [rec], Layout(l.at + [slot], l.steps + [k]);
    PassedIsTaken(index, records, key, Home(key, |index|), k);
    EnterPoints(index, |records|, l, slot, k);
    DistinctWith(records, rec);
    forall i | 0 <= i < |records'|
      ensures 0 < |index'| && Reachable(index', Home(records'[i].key, |index'|), l'.at[i], l'.steps[i])
    {
      if i < |records| {
        assert Reachable(index, Home(records[i].key, |index|), l.at[i], l.steps[i]);
        StillReachable(index, Home(records[i].key, |index|), l.at[i], l.steps[i], slot, |records| + 1);
      } else {
        StillReachable(index, Home(key, |index|), slot, k, slot, |records| + 1);
      }
    }
  }

  lemma {:induction false} DistinctWith(records: seq<Record>, rec: Record)
    requires KeysDistinct(records) && IndexOf(records, rec.key).None?
    ensures KeysDistinct(records + [rec])
  {
    var more := records + [rec];
    forall i, j | 0 <= i < j < |more| ensures more[i].key != more[j].key {
      assert more[i] == records[i];
    }
  }

  /** Filling a slot takes no slot off a probing path. */
  lemma {:induction false} StillReachable(index: seq<nat>, home: nat, at: nat, steps: nat, slot: nat, entry: nat)
    requires Reachable(index, home, at, steps) && slot < |index| && entry != 0
    ensures Reachable(index[slot := entry], home, at, steps)
  {
  }

  lemma {:induction false} EnterPoints(index: seq<nat>, n: nat, l: Layout, slot: nat, k: nat)
    requires SlotsPoint(index, n, l) && slot < |index| && k < |index| && index[slot] == 0
    ensures SlotsPoint(index[slot := n + 1], n + 1, Layout(l.at + [slot], l.steps + [k]))
  {
    var index', l' := index[slot := n + 1], Layout(l.at + [slot], l.steps + [k]);
    forall s | 0 <= s < |index'| && index'[s] != 0 ensures index'[s] <= n + 1 && l'.at[index'[s] - 1] == s {
      if s != slot { assert index[s] <= n && l.at[index[s] - 1] == s; }
    }
  }

  lemma {:induction false} DistinctKept(a: seq<Record>, b: seq<Record>)
    requires KeysDistinct(a) && |a| == |b| && forall i :: 0 <= i < |a| ==> a[i].key == b[i].key
    ensures KeysDistinct(b)
  {
    forall i, j | 0 <= i < j < |b| ensures b[i].key != b[j].key {
      assert a[i].key == b[i].key && a[j].key == b[j].key;
    }
  }

  /** Changing a record without its key leaves the index right. */
  lemma {:induction false} SameKeysKeepIndex(index: seq<nat>, a: seq<Record>, b: seq<Record>, l: Layout)
    requires Represents(index, a, l) && |a| == |b| && forall i :: 0 <= i < |a| ==> a[i].key == b[i].key
    ensures Represents(index, b, l)
  {
    assert SlotsPoint(index, |b|, l);
    DistinctKept(a, b);
    forall i | 0 <= i < |b| ensures 0 < |index| && Reachable(index, Home(b[i].key, |index|), l.at[i], l.steps[i]) {
      assert Reachable(index, Home(a[i].key, |index|), l.at[i], l.steps[i]) && a[i].key == b[i].key;
    }
  }

  lemma {:induction false} EmptyIndex(size: nat)
    requires 0 < size
    ensures Represents(seq(size, _ => 0), [], Layout([], []))
  {
  }

  /** The probing loop, from the home of a key: a record with the key, or a free slot reached past
      other keys only. */
  method Search(index: seq<nat>, records: seq<Record>, ghost l: Layout, key: seq<byte>, home: nat)
    returns (found: Option<nat>, slot: nat, ghost k: nat)
    requires SlotsPoint(index, |records|, l) && |records| < |index| && home < |index|
    ensures found.Some? ==> found.value < |records| && records[found.value].key == key
    ensures found.None? ==> k < |index| && slot == Probe(home, k, |index|) &&
                            index[slot] == 0 && Passed(index, records, key, home, k)
  {
    slot, k := home, 0;
    while index[slot] != 0
      invariant k < |index| && slot == Probe(home, k, |index|)
      invariant Passed(index, records, key, home, k)
      decreases |index| - k
    {
      EntryInRange(index, |records|, l, slot);
      if records[index[slot] - 1].key == key {
        return Some(index[slot] - 1), slot, k;
      }
      ProbeOn(index, records, l, key, home, k);
      slot := if slot + 1 == |index| then 0 else slot + 1;
      k := k + 1;
    }
    return None, slot, k;
  }

  lemma {:induction false} EntryInRange(index: seq<nat>, n: nat, l: Layout, slot: nat)
    requires SlotsPoint(index, n, l) && slot < |index| && index[slot] != 0
    ensures index[slot] <= n
  {
  }

  lemma {:induction false} DoubleIsPower(n: nat)
    requires 0 < n && PowerOfTwo(n)
    ensures PowerOfTwo(n * 2)
  {
    assert n * 2 / 2 == n && n * 2 % 2 == 0;
  }

  /** The smallest power of two that keeps the load at one half. */
  method IndexSize(capacity: nat) returns (size: nat)
    ensures capacity * 2 <= size && PowerOfTwo(size) && (size == 1 || size < capacity * 4)
  {
    size := 1;
    while size < capacity * 2
      invariant 0 < size && PowerOfTwo(size) && (size == 1 || size < capacity * 4)
      decreases capacity * 2 - size
    {
      DoubleIsPower(size);
      size := size * 2;
    }
  }

  lemma {:induction false} FreshIsWellFormed(s: State, key: seq<byte>)
    requires WellFormed(s)
    ensures WellFormed(s.(records := s.records + [Fresh(key, s.sequence)]))
  {
  }

  // ----- The history

  class History {
    const capacity: nat
    var index: seq<nat>
    var records: seq<Record>
    var sequence: nat
    var full: bool
    var frames: seq<Frame>
    ghost var log: seq<Accepted>
    ghost var layout: Layout

    /** The load is at most one half and the index represents the keys. */
    ghost predicate Valid()
      reads this
    {
      0 < capacity && 2 * capacity <= |index| && PowerOfTwo(|index|) && |records| <= capacity &&
      Represents(index, records, layout) && WellFormed(Model())
    }

    ghost function Model(): State
      reads this
    {
      State(records, sequence, full, frames, log)
    }

    /** traffic_history_open, for a capacity it accepts. */
    constructor (capacity: nat)
      requires 0 < capacity
      ensures Valid() && this.capacity == capacity && Model() == Run(capacity, [])
    {
      var size := IndexSize(capacity);
      this.capacity := capacity;
      index := seq(size, _ => 0);
      records, sequence, full, log := [], 0, false, [];
      frames := seq(SAMPLES, _ => NO_FRAME);
      layout := Layout([], []);
      EmptyIndex(size);
    }

    /** The record of the key, or the free slot where the key belongs. */
    method Locate(key: seq<byte>) returns (found: Option<nat>, slot: nat, ghost k: nat)
      requires Valid()
      ensures found == IndexOf(records, key)
      ensures found.None? ==> k < |index| && slot == Probe(Home(key, |index|), k, |index|) &&
                              index[slot] == 0 && Passed(index, records, key, Home(key, |index|), k)
    {
      found, slot, k := Search(index, records, layout, key, Home(key, |index|));
      if found.Some? {
        FoundIsIndexOf(records, key, found.value);
      } else {
        FreeSlotMeansAbsent(index, records, layout, key, k);
      }
    }

    /** Take a row into the record at `i`. */
    method Take(i: nat, row: Row)
      requires Valid() && i < |records|
      modifies this`records, this`log
      ensures Valid() && Model() == AcceptAt(old(Model()), i, row)
    {
      TotalsNeverDecrease(records[i], row, SlotOf(sequence));
      log := log + Note(Model(), i, row);
      ghost var before := records;
      records := records[i := Accept(records[i], row, SlotOf(sequence))];
      SameKeysKeepIndex(index, before, records, layout);
    }

    method Enter(key: seq<byte>, slot: nat, ghost k: nat)
      requires Valid() && |records| < capacity && IndexOf(records, key).None?
      requires k < |index| && slot == Probe(Home(key, |index|), k, |index|) && index[slot] == 0
      requires Passed(index, records, key, Home(key, |index|), k)
      modifies this`records, this`index, this`layout
      ensures Valid() && Model() == old(Model()).(records := old(records) + [Fresh(key, sequence)])
    {
      var blank := Fresh(key, sequence);
      EnterKeepsIndex(index, records, layout, key, k, blank);
      FreshIsWellFormed(Model(), key);
      index, records := index[slot := |records| + 1], records + [blank];
      layout := Layout(layout.at + [slot], layout.steps + [k]);
    }

    /** traffic_history_update: the record of the key, which is always the same one, or nothing exactly
        when the key is new and the table is full. */
    method UpdateRow(key: seq<byte>, row: Row) returns (r: Option<nat>)
      requires Valid()
      modifies this
      ensures Valid() && Model() == UpdateKey(capacity, old(Model()), key, row)
      ensures r.None? <==> IndexOf(old(records), key).None? && |old(records)| == capacity
      ensures r.Some? ==> r.value < |records| && records[r.value].key == key && IndexOf(records, key) == r
      ensures IndexOf(old(records), key).Some? ==> r == IndexOf(old(records), key)
    {
      ghost var k;
      var slot: nat;
      r, slot, k := Locate(key);
      if r.None? {
        if |records| == capacity {
          full := true;
          return None;
        }
        r := Some(|records|);
        Enter(key, slot, k);
      }
      Take(r.value, row);
      FoundIsIndexOf(records, key, r.value);
    }

    /** Empty one slot of every record's ring, and mark every record as not seen yet. */
    method ClearSlot(slot: nat, now: nat)
      requires WellFormed(Model()) && slot < SAMPLES
      modifies this`records
      ensures |records| == |old(records)| && WellFormed(Model())
      ensures forall i :: 0 <= i < |records| ==> records[i] == Cleared(old(records)[i], slot, now)
    {
      ghost var before := records;
      for i := 0 to |records|
        invariant |records| == |before|
        invariant forall j :: 0 <= j < i ==> records[j] == Cleared(before[j], slot, now)
        invariant forall j :: i <= j < |records| ==> records[j] == before[j]
      {
        records := records[i := Cleared(records[i], slot, now)];
      }
    }

    /** traffic_history_begin */
    method BeginSamples(timestamp: string, now: nat, elapsed: nat)
      requires Valid()
      modifies this`records, this`sequence, this`frames
      ensures Valid() && Model() == BeginRound(old(Model()), timestamp, now, elapsed)
    {
      ghost var before, after := records, BeginRound(Model(), timestamp, now, elapsed);
      var slot := sequence % SAMPLES;
      sequence := sequence + 1;
      frames := frames[slot := HeadingOf(sequence, timestamp, elapsed)];
      ClearSlot(slot, now);
      assert records == after.records;
      SameKeysKeepIndex(index, before, records, layout);
    }
  }
}
