/** Totals over whole runs of the traffic history, with all keys interleaved. */
module TrafficTotals {
  import opened Wrappers
  import opened Bits
  import opened TrafficRecords
  import opened TrafficIndex

  /** The rows a run brought for a key. */
  ghost function RowsFor(ops: seq<Op>, key: seq<byte>): seq<Row> {
    if ops == [] then []
    else
      var last := ops[|ops| - 1];
      RowsFor(ops[..|ops| - 1], key) + if last.Update? && last.key == key then [last.row] else []
  }

  /** A record that took these rows and nothing else, apart from what a new round changes. */
  ghost function Took(key: seq<byte>, born: nat, rows: seq<Row>): (r: Record)
    ensures Consistent(r) && r.key == key && r.born == born
  {
    if rows == [] then Fresh(key, born)
    else
      var front := Took(key, born, rows[..|rows| - 1]);
      TotalsNeverDecrease(front, rows[|rows| - 1], 0);
      Accept(front, rows[|rows| - 1], 0)
  }

  ghost predicate Same(a: Record, b: Record) {
    |a.samples| == |b.samples| == SAMPLES &&
    a == b.(samples := a.samples, rxRate := a.rxRate, txRate := a.txRate, idle := a.idle, archived := a.archived)
  }

  lemma {:induction false} AcceptSame(a: Record, b: Record, row: Row, i: nat, j: nat)
    requires Same(a, b) && i < SAMPLES && j < SAMPLES
    ensures Same(Accept(a, row, i), Accept(b, row, j))
  {
  }

  lemma {:induction false} TookOne(key: seq<byte>, born: nat, rows: seq<Row>, row: Row)
    ensures Took(key, born, rows + [row]) == Accept(Took(key, born, rows), row, 0)
  {
    assert (rows + [row])[..|rows + [row]| - 1] == rows;
  }

  /** Every record stands where its own rows put it, and while there is room nothing was turned away. */
  ghost predicate Attributed(capacity: nat, s: State, ops: seq<Op>) {
    KeysDistinct(s.records) &&
    (forall i :: 0 <= i < |s.records| ==>
       Same(s.records[i], Took(s.records[i].key, s.records[i].born, RowsFor(ops, s.records[i].key)))) &&
    (|s.records| < capacity ==> forall key :: IndexOf(s.records, key).None? ==> RowsFor(ops, key) == [])
  }

  lemma {:induction false} RowsForOne(ops: seq<Op>, op: Op, key: seq<byte>)
    ensures RowsFor(ops + [op], key) == RowsFor(ops, key) + if op.Update? && op.key == key then [op.row] else []
  {
    assert (ops + [op])[..|ops + [op]| - 1] == ops;
  }

  lemma {:induction false} RowsForBegin(ops: seq<Op>, op: Op)
    requires op.Begin?
    ensures forall key :: RowsFor(ops + [op], key) == RowsFor(ops, key)
  {
    forall key ensures RowsFor(ops + [op], key) == RowsFor(ops, key) {
      RowsForOne(ops, op, key);
    }
  }

  lemma {:induction false} BeginAttributes(capacity: nat, s: State, ops: seq<Op>, op: Op)
    requires op.Begin? && WellFormed(s) && Attributed(capacity, s, ops)
    ensures Attributed(capacity, BeginRound(s, op.timestamp, op.now, op.elapsed), ops + [op])
  {
    var t := BeginRound(s, op.timestamp, op.now, op.elapsed);
    RowsForBegin(ops, op);
    forall i | 0 <= i < |t.records|
      ensures Same(t.records[i], Took(t.records[i].key, t.records[i].born, RowsFor(ops + [op], t.records[i].key)))
    {
      assert Same(s.records[i], Took(s.records[i].key, s.records[i].born, RowsFor(ops, s.records[i].key)));
    }
    forall key | IndexOf(t.records, key).None? ensures IndexOf(s.records, key).None? {
      AbsentBefore(s.records, t.records, key);
    }
  }

  /** The record of a row takes it; all others keep theirs. */
  lemma {:induction false} TakeAttributes(s: State, ops: seq<Op>, i: nat, row: Row, k: nat)
    requires WellFormed(s) && KeysDistinct(s.records) && i < |s.records| && k < |s.records|
    requires Same(s.records[k], Took(s.records[k].key, s.records[k].born, RowsFor(ops, s.records[k].key)))
    ensures var t := AcceptAt(s, i, row);
            var key := s.records[k].key;
            t.records[k].key == key && t.records[k].born == s.records[k].born &&
            Same(t.records[k], Took(key, t.records[k].born, RowsFor(ops + [Update(s.records[i].key, row)], key)))
  {
    var key := s.records[k].key;
    RowsForOne(ops, Update(s.records[i].key, row), key);
    if k == i {
      TookOne(key, s.records[k].born, RowsFor(ops, key), row);
      AcceptSame(s.records[k], Took(key, s.records[k].born, RowsFor(ops, key)), row, SlotOf(s.sequence), 0);
    } else {
      assert RowsFor(ops, key) + [] == RowsFor(ops, key);
    }
  }

  /** A row for the record at `i`, which holds its key. */
  lemma {:induction false} AcceptAttributes(s: State, ops: seq<Op>, i: nat, row: Row)
    requires WellFormed(s) && KeysDistinct(s.records) && i < |s.records|
    requires forall k :: 0 <= k < |s.records| ==>
               Same(s.records[k], Took(s.records[k].key, s.records[k].born, RowsFor(ops, s.records[k].key)))
    ensures var t, more := AcceptAt(s, i, row), ops + [Update(s.records[i].key, row)];
            |t.records| == |s.records| &&
            (forall k :: 0 <= k < |t.records| ==> t.records[k].key == s.records[k].key) &&
            forall k :: 0 <= k < |t.records| ==>
              Same(t.records[k], Took(t.records[k].key, t.records[k].born, RowsFor(more, t.records[k].key)))
  {
    var t, more := AcceptAt(s, i, row), ops + [Update(s.records[i].key, row)];
    forall k | 0 <= k < |t.records|
      ensures t.records[k].key == s.records[k].key
      ensures Same(t.records[k], Took(t.records[k].key, t.records[k].born, RowsFor(more, t.records[k].key)))
    {
      TakeAttributes(s, ops, i, row, k);
    }
  }

  lemma {:induction false} NothingForOthers(capacity: nat, s: State, t: State, ops: seq<Op>, key: seq<byte>, row: Row)
    requires Attributed(capacity, s, ops) && |s.records| <= |t.records| < capacity
    requires forall k :: 0 <= k < |s.records| ==> s.records[k].key == t.records[k].key
    requires IndexOf(t.records, key).Some?
    ensures forall other :: IndexOf(t.records, other).None? ==> RowsFor(ops + [Update(key, row)], other) == []
  {
    forall other | IndexOf(t.records, other).None? ensures RowsFor(ops + [Update(key, row)], other) == [] {
      RowsForOne(ops, Update(key, row), other);
      AbsentBefore(s.records, t.records, other);
    }
  }

  /** The table with a record for the key, fresh if it is new. */
  ghost function WithKey(s: State, key: seq<byte>): State {
    if IndexOf(s.records, key).Some? then s else s.(records := s.records + [Fresh(key, s.sequence)])
  }

  lemma {:induction false} WithKeyAttributes(capacity: nat, s: State, ops: seq<Op>, key: seq<byte>)
    requires WellFormed(s) && Attributed(capacity, s, ops) && (IndexOf(s.records, key).Some? || |s.records| < capacity)
    ensures var t := WithKey(s, key);
            WellFormed(t) && KeysDistinct(t.records) && |s.records| <= |t.records| &&
            (forall k :: 0 <= k < |s.records| ==> s.records[k].key == t.records[k].key) &&
            forall k :: 0 <= k < |t.records| ==>
              Same(t.records[k], Took(t.records[k].key, t.records[k].born, RowsFor(ops, t.records[k].key)))
  {
    var t := WithKey(s, key);
    if IndexOf(s.records, key).None? {
      assert RowsFor(ops, key) == [] && Took(key, s.sequence, []) == Fresh(key, s.sequence);
    }
  }

  lemma {:induction false} UpdateAttributes(capacity: nat, s: State, ops: seq<Op>, key: seq<byte>, row: Row)
    requires WellFormed(s) && Attributed(capacity, s, ops)
    ensures Attributed(capacity, UpdateKey(capacity, s, key, row), ops + [Update(key, row)])
  {
    var t := UpdateKey(capacity, s, key, row);
    var found := IndexOf(s.records, key);
    if found.None? && |s.records| >= capacity {
      TurnedAway(s, ops, key, row);
    } else {
      WithKeyAttributes(capacity, s, ops, key);
      var room, i := WithKey(s, key), if found.None? then |s.records| else found.value;
      assert t == AcceptAt(room, i, row) && room.records[i].key == key;
      AcceptAttributes(room, ops, i, row);
      assert t.records[i].key == key;
      if |t.records| < capacity {
        NothingForOthers(capacity, s, t, ops, key, row);
      }
    }
  }

  lemma {:induction false} AbsentBefore(a: seq<Record>, b: seq<Record>, key: seq<byte>)
    requires |a| <= |b| && (forall k :: 0 <= k < |a| ==> a[k].key == b[k].key) && IndexOf(b, key).None?
    ensures IndexOf(a, key).None?
  {
  }

  lemma {:induction false} TurnedAway(s: State, ops: seq<Op>, key: seq<byte>, row: Row)
    requires IndexOf(s.records, key).None?
    ensures forall i :: 0 <= i < |s.records| ==>
              RowsFor(ops + [Update(key, row)], s.records[i].key) == RowsFor(ops, s.records[i].key)
  {
    forall i | 0 <= i < |s.records|
      ensures RowsFor(ops + [Update(key, row)], s.records[i].key) == RowsFor(ops, s.records[i].key)
    {
      RowsForOne(ops, Update(key, row), s.records[i].key);
    }
  }

  /** In every run every record is what its own rows make it, whatever came in between for others. */
  lemma {:induction false} EveryRunAttributes(capacity: nat, ops: seq<Op>)
    ensures Attributed(capacity, Run(capacity, ops), ops)
  {
    if ops != [] {
      var front, op := ops[..|ops| - 1], ops[|ops| - 1];
      EveryRunAttributes(capacity, front);
      assert ops == front + [op];
      match op
      case Begin(_, _, _) => BeginAttributes(capacity, Run(capacity, front), front, op);
      case Update(key, row) => UpdateAttributes(capacity, Run(capacity, front), front, key, row);
    }
  }

  // ----- Archived records

  /** A row for the key has come since the last round began. */
  ghost predicate SeenThisRound(ops: seq<Op>, key: seq<byte>) {
    ops != [] &&
    var last := ops[|ops| - 1];
    !last.Begin? && (last.key == key || SeenThisRound(ops[..|ops| - 1], key))
  }

  ghost predicate AllMarked(records: seq<Record>, ops: seq<Op>) {
    forall i :: 0 <= i < |records| ==> (records[i].archived <==> !SeenThisRound(ops, records[i].key))
  }

  /** In every run the records marked archived are exactly those that no row has come for since the
      last round began. */
  lemma {:induction false} ArchivedExactly(capacity: nat, ops: seq<Op>)
    ensures AllMarked(Run(capacity, ops).records, ops)
  {
    if ops != [] {
      var front, op := ops[..|ops| - 1], ops[|ops| - 1];
      ArchivedExactly(capacity, front);
      if op.Update? {
        EveryRunAttributes(capacity, front);
        UpdateMarks(capacity, Run(capacity, front), ops);
      }
    }
  }

  lemma {:induction false} UpdateMarks(capacity: nat, s: State, ops: seq<Op>)
    requires ops != [] && ops[|ops| - 1].Update? && WellFormed(s) && KeysDistinct(s.records)
    requires AllMarked(s.records, ops[..|ops| - 1])
    ensures AllMarked(UpdateKey(capacity, s, ops[|ops| - 1].key, ops[|ops| - 1].row).records, ops)
  {
    UpdateArchives(capacity, s, ops[|ops| - 1].key, ops[|ops| - 1].row);
  }

  lemma {:induction false} UpdateArchives(capacity: nat, s: State, key: seq<byte>, row: Row)
    requires WellFormed(s) && KeysDistinct(s.records)
    ensures var t := UpdateKey(capacity, s, key, row);
            |s.records| <= |t.records| &&
            (forall i :: 0 <= i < |s.records| ==>
               t.records[i].key == s.records[i].key &&
               t.records[i].archived == (s.records[i].archived && s.records[i].key != key)) &&
            forall i :: |s.records| <= i < |t.records| ==> t.records[i].key == key && !t.records[i].archived
  {
    var t := UpdateKey(capacity, s, key, row);
    var found := IndexOf(s.records, key);
    if found.Some? { FoundIsIndexOf(s.records, key, found.value); }
  }

  // ----- The sum of deltas over a whole run

  ghost function RowsOf(rounds: seq<Round>): seq<Row> {
    if rounds == [] then []
    else
      var front, last := rounds[..|rounds| - 1], rounds[|rounds| - 1];
      RowsOf(front) + [RowOf(last.value, PreviousOf(front), last.since, last.now)]
  }

  lemma {:induction false} SampledIsTook(key: seq<byte>, born: nat, rounds: seq<Round>)
    requires forall i :: 0 <= i < |rounds| ==> rounds[i].slot < SAMPLES
    ensures Same(Sampled(key, born, rounds), Took(key, born, RowsOf(rounds)))
  {
    if rounds != [] {
      var front, last := rounds[..|rounds| - 1], rounds[|rounds| - 1];
      var row := RowOf(last.value, PreviousOf(front), last.since, last.now);
      SampledIsTook(key, born, front);
      TookOne(key, born, RowsOf(front), row);
      AcceptSame(Sampled(key, born, front), Took(key, born, RowsOf(front)), row, last.slot, 0);
    }
  }

  /** In every run, a key that is stored and whose rows came from one sample a round, every one of
      them valid, has a total equal to the sum of all deltas reported for it. */
  lemma {:induction false} StoredTotalIsSumOfDeltas(capacity: nat, ops: seq<Op>, key: seq<byte>, rounds: seq<Round>)
    requires forall i :: 0 <= i < |rounds| ==> rounds[i].slot < SAMPLES
    requires IndexOf(Run(capacity, ops).records, key).Some? && RowsFor(ops, key) == RowsOf(rounds)
    requires AllValid(key, Run(capacity, ops).records[IndexOf(Run(capacity, ops).records, key).value].born, rounds)
    ensures var rec := Run(capacity, ops).records[IndexOf(Run(capacity, ops).records, key).value];
            rec.rxTotal == DeltaSum(rounds).rx && rec.txTotal == DeltaSum(rounds).tx
  {
    var i := IndexOf(Run(capacity, ops).records, key).value;
    var rec := Run(capacity, ops).records[i];
    EveryRunAttributes(capacity, ops);
    assert Same(rec, Took(rec.key, rec.born, RowsFor(ops, rec.key)));
    SampledIsTook(key, rec.born, rounds);
    TotalIsSumOfDeltas(key, rec.born, rounds);
  }

  // ----- Which keys are stored

  /** The keys of the rows so far, each once, in the order they first came. */
  ghost function KeysSeen(ops: seq<Op>): seq<seq<byte>> {
    if ops == [] then []
    else
      var front, last := KeysSeen(ops[..|ops| - 1]), ops[|ops| - 1];
      if last.Update? && last.key !in front then front + [last.key] else front
  }

  ghost predicate StoresFirst(capacity: nat, s: State, keys: seq<seq<byte>>) {
    |s.records| == (if |keys| < capacity then |keys| else capacity) &&
    (forall i :: 0 <= i < |s.records| ==> s.records[i].key == keys[i]) && (s.full <==> |keys| > capacity)
  }

  ghost predicate EachOnce(keys: seq<seq<byte>>) {
    forall i, j :: 0 <= i < j < |keys| ==> keys[i] != keys[j]
  }

  /** In every run the records are those of the first keys that came, in this order and up to the capacity,
      and the table calls itself full exactly when some key had to be turned away. */
  lemma {:induction false} StoresFirstKeys(capacity: nat, ops: seq<Op>)
    ensures StoresFirst(capacity, Run(capacity, ops), KeysSeen(ops)) && EachOnce(KeysSeen(ops))
  {
    if ops != [] {
      var front, last := ops[..|ops| - 1], ops[|ops| - 1];
      StoresFirstKeys(capacity, front);
      if last.Update? {
        UpdateStores(capacity, Run(capacity, front), KeysSeen(front), last.key, last.row);
      }
    }
  }

  lemma {:induction false} UpdateStores(capacity: nat, s: State, keys: seq<seq<byte>>, key: seq<byte>, row: Row)
    requires WellFormed(s) && StoresFirst(capacity, s, keys) && EachOnce(keys)
    ensures var more := if key in keys then keys else keys + [key];
            StoresFirst(capacity, UpdateKey(capacity, s, key, row), more) && EachOnce(more)
  {
    var found := IndexOf(s.records, key);
    if key in keys {
      var i :| 0 <= i < |keys| && keys[i] == key;
      if i < |s.records| { assert s.records[i].key == key; }
    } else {
      assert found.None?;
    }
  }
}
