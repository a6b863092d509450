/** Cumulative totals told from the rows of a key alone: the highest counter of every generation in turn,
    added up, whatever counters fell back and whatever snapshots of old generations came late. */
module TrafficPeaks {
  import opened Bits
  import opened Wrappers
  import opened TrafficRecords
  import opened TrafficIndex
  import opened TrafficTotals

  ghost function CounterOf(row: Row, rx: bool): nat {
    if rx then row.rx else row.tx
  }

  /** The newest generation among the rows. */
  ghost function NewestGeneration(rows: seq<Row>): (g: nat)
    ensures rows != [] ==> exists i :: 0 <= i < |rows| && rows[i].firstSeen == g
    ensures forall i :: 0 <= i < |rows| ==> rows[i].firstSeen <= g
  {
    if rows == [] then 0
    else
      var front, last := NewestGeneration(rows[..|rows| - 1]), rows[|rows| - 1].firstSeen;
      if last > front || |rows| == 1 then last else front
  }

  /** The highest counter that the rows show for a generation. */
  ghost function Peak(rows: seq<Row>, generation: nat, rx: bool): nat {
    if rows == [] then 0
    else
      var front, last := Peak(rows[..|rows| - 1], generation, rx), rows[|rows| - 1];
      if last.firstSeen == generation && CounterOf(last, rx) > front then CounterOf(last, rx) else front
  }

  /** The place of the first row of a generation. */
  ghost function FirstRow(rows: seq<Row>, generation: nat): (i: nat)
    requires exists i :: 0 <= i < |rows| && rows[i].firstSeen == generation
    ensures i < |rows| && rows[i].firstSeen == generation
    ensures forall j :: 0 <= j < i ==> rows[j].firstSeen != generation
    decreases |rows|
  {
    if exists i :: 0 <= i < |rows| - 1 && rows[i].firstSeen == generation
    then
      assert forall i :: 0 <= i < |rows| - 1 ==> rows[..|rows| - 1][i] == rows[i];
      FirstRow(rows[..|rows| - 1], generation)
    else |rows| - 1
  }

  /** The peak of the newest generation, and the total of what came before it. */
  ghost function Total(rows: seq<Row>, rx: bool): nat
    decreases |rows|
  {
    if rows == [] then 0
    else
      var g := NewestGeneration(rows);
      Total(rows[..FirstRow(rows, g)], rx) + Peak(rows, g, rx)
  }

  lemma {:induction false} FirstRowIs(rows: seq<Row>, generation: nat, i: nat)
    requires i < |rows| && rows[i].firstSeen == generation
    requires forall j :: 0 <= j < i ==> rows[j].firstSeen != generation
    ensures FirstRow(rows, generation) == i
  {
  }

  lemma {:induction false} NewestIs(rows: seq<Row>, g: nat)
    requires rows != [] && (exists i :: 0 <= i < |rows| && rows[i].firstSeen == g)
    requires forall i :: 0 <= i < |rows| ==> rows[i].firstSeen <= g
    ensures NewestGeneration(rows) == g
  {
  }

  lemma {:induction false} PeakOne(rows: seq<Row>, row: Row, g: nat, rx: bool)
    ensures Peak(rows + [row], g, rx) ==
            if row.firstSeen == g && CounterOf(row, rx) > Peak(rows, g, rx)
            then CounterOf(row, rx) else Peak(rows, g, rx)
  {
    assert (rows + [row])[..|rows + [row]| - 1] == rows;
  }

  lemma {:induction false} PeakOfNewer(rows: seq<Row>, g: nat, rx: bool)
    requires forall i :: 0 <= i < |rows| ==> rows[i].firstSeen != g
    ensures Peak(rows, g, rx) == 0
  {
    if rows != [] { PeakOfNewer(rows[..|rows| - 1], g, rx); }
  }

  lemma {:induction false} NewestOne(rows: seq<Row>, row: Row)
    ensures NewestGeneration(rows + [row]) ==
            if rows == [] || row.firstSeen > NewestGeneration(rows) then row.firstSeen else NewestGeneration(rows)
  {
    var more := rows + [row];
    assert more[|rows|] == row && forall i :: 0 <= i < |rows| ==> more[i] == rows[i];
    assert more[..|more| - 1] == rows;
  }

  /** One more row, of an old generation, the newest, or a new one. */
  lemma {:induction false} TotalOne(rows: seq<Row>, row: Row, rx: bool)
    ensures rows == [] || row.firstSeen > NewestGeneration(rows) ==>
              Total(rows + [row], rx) == Total(rows, rx) + CounterOf(row, rx)
    ensures rows != [] && row.firstSeen <= NewestGeneration(rows) ==>
              var g := NewestGeneration(rows);
              Total(rows + [row], rx) == Total(rows[..FirstRow(rows, g)], rx) + Peak(rows + [row], g, rx)
  {
    var more := rows + [row];
    NewestOne(rows, row);
    assert more[|rows|] == row && forall i :: 0 <= i < |rows| ==> more[i] == rows[i];
    if rows == [] || row.firstSeen > NewestGeneration(rows) {
      FirstRowIs(more, row.firstSeen, |rows|);
      PeakOfNewer(rows, row.firstSeen, rx);
      PeakOne(rows, row, row.firstSeen, rx);
      assert more[..|rows|] == rows;
    } else {
      var i := FirstRow(rows, NewestGeneration(rows));
      FirstRowIs(more, NewestGeneration(rows), i);
      assert more[..i] == rows[..i];
    }
  }

  ghost predicate Dated(rows: seq<Row>) {
    forall i :: 0 <= i < |rows| ==> rows[i].firstSeen != 0
  }

  /** A row that is not late nor below a counter of its generation, and that the sampler trusts. */
  ghost predicate Sound(rows: seq<Row>, row: Row) {
    row.valid && row.firstSeen >= NewestGeneration(rows) &&
    row.rx >= Peak(rows, row.firstSeen, true) && row.tx >= Peak(rows, row.firstSeen, false)
  }

  /** Where a record stands after its rows. */
  ghost predicate StandsAt(rec: Record, rows: seq<Row>) {
    rec.rxTotal == Total(rows, true) && rec.txTotal == Total(rows, false) && Consistent(rec) &&
    rec.generation == NewestGeneration(rows) &&
    rec.rxCounter == Peak(rows, NewestGeneration(rows), true) &&
    rec.txCounter == Peak(rows, NewestGeneration(rows), false)
  }

  /** What one more row does to totals and peaks, for one counter. */
  lemma {:induction false} PeaksAfter(rows: seq<Row>, row: Row, rx: bool)
    requires Dated(rows) && row.firstSeen != 0
    ensures var g, more := NewestGeneration(rows), rows + [row];
            if row.firstSeen > g
            then Total(more, rx) == Total(rows, rx) + CounterOf(row, rx) && Peak(rows, row.firstSeen, rx) == 0 &&
                 Peak(more, row.firstSeen, rx) == CounterOf(row, rx)
            else rows != [] && Total(more, rx) + Peak(rows, g, rx) == Total(rows, rx) + Peak(more, g, rx) &&
                 Peak(more, g, rx) == if row.firstSeen == g then Max(Peak(rows, g, rx), CounterOf(row, rx))
                                      else Peak(rows, g, rx)
  {
    var g := NewestGeneration(rows);
    TotalOne(rows, row, rx);
    if row.firstSeen > g {
      PeakOfNewer(rows, row.firstSeen, rx);
      PeakOne(rows, row, row.firstSeen, rx);
    } else {
      PeakOne(rows, row, g, rx);
    }
  }

  lemma {:induction false} NewestIsDated(rows: seq<Row>)
    requires Dated(rows)
    ensures NewestGeneration(rows) == 0 <==> rows == []
  {
    if rows != [] {
      var i :| 0 <= i < |rows| && rows[i].firstSeen == NewestGeneration(rows);
    }
  }

  /** The numbers of a record after a row: unless it is late, its counters, totals and mark. */
  ghost predicate AfterRow(rec: Record, row: Row, r: Record) {
    Consistent(r) &&
    var g := rec.generation;
    if g != 0 && row.firstSeen < g
    then r.rxTotal == rec.rxTotal && r.txTotal == rec.txTotal && r.generation == g && !r.valid &&
         r.rxCounter == rec.rxCounter && r.txCounter == rec.txCounter
    else
      var same := g == 0 || row.firstSeen == g;
      var rx, tx := if same then rec.rxCounter else 0, if same then rec.txCounter else 0;
      r.generation == row.firstSeen && r.rxCounter == Max(rx, row.rx) && r.txCounter == Max(tx, row.tx) &&
      r.rxTotal == (if same then rec.rxTotal - rec.rxCounter else rec.rxTotal) + r.rxCounter &&
      r.txTotal == (if same then rec.txTotal - rec.txCounter else rec.txTotal) + r.txCounter &&
      r.valid == (row.valid && row.rx >= rx && row.tx >= tx)
  }

  lemma {:induction false} AcceptIsAfterRow(rec: Record, row: Row, slot: nat)
    requires Consistent(rec) && row.firstSeen != 0 && slot < SAMPLES
    ensures AfterRow(rec, row, Accept(rec, row, slot))
    ensures Late(rec, row) <==> rec.generation != 0 && row.firstSeen < rec.generation
    ensures !Late(rec, row) ==> Valid(rec, row) == Accept(rec, row, slot).valid
  {
    TotalsNeverDecrease(rec, row, slot);
  }

  lemma {:induction false} AfterRowStands(rec: Record, rows: seq<Row>, row: Row, r: Record)
    requires StandsAt(rec, rows) && Dated(rows) && row.firstSeen != 0 && AfterRow(rec, row, r)
    ensures StandsAt(r, rows + [row]) && (r.valid <==> Sound(rows, row))
  {
    NewestIsDated(rows);
    NewestOne(rows, row);
    PeaksAfter(rows, row, true);
    PeaksAfter(rows, row, false);
    if rows == [] { assert rec.rxTotal == 0 && rec.txTotal == 0; }
  }

  lemma {:induction false} AcceptStands(rec: Record, rows: seq<Row>, row: Row, slot: nat)
    requires StandsAt(rec, rows) && Dated(rows) && row.firstSeen != 0 && slot < SAMPLES
    ensures StandsAt(Accept(rec, row, slot), rows + [row])
    ensures Accept(rec, row, slot).valid <==> Sound(rows, row)
    ensures row.firstSeen >= NewestGeneration(rows) ==>
              !Late(rec, row) && (Valid(rec, row) <==> Sound(rows, row))
    ensures row.firstSeen < NewestGeneration(rows) ==> Late(rec, row)
  {
    NewestIsDated(rows);
    AcceptIsAfterRow(rec, row, slot);
    AfterRowStands(rec, rows, row, Accept(rec, row, slot));
  }

  /** A record that took dated rows has the sum of the peaks of their generations as its total. */
  lemma {:induction false} TookStands(key: seq<byte>, born: nat, rows: seq<Row>)
    requires Dated(rows)
    ensures StandsAt(Took(key, born, rows), rows)
    ensures rows != [] ==>
              (Took(key, born, rows).valid <==> Sound(rows[..|rows| - 1], rows[|rows| - 1]))
  {
    if rows != [] {
      var front, row := rows[..|rows| - 1], rows[|rows| - 1];
      TookStands(key, born, front);
      assert rows == front + [row];
      AcceptStands(Took(key, born, front), front, row, 0);
    }
  }

  /** In every run the totals of a stored key whose rows are dated are the sums of the highest counters
      of its generations, and its last sample counts as valid exactly when the last row was sound. */
  lemma {:induction false} TotalsArePeaks(capacity: nat, ops: seq<Op>, key: seq<byte>)
    requires IndexOf(Run(capacity, ops).records, key).Some? && Dated(RowsFor(ops, key))
    ensures var rec := Run(capacity, ops).records[IndexOf(Run(capacity, ops).records, key).value];
            var rows := RowsFor(ops, key);
            rec.rxTotal == Total(rows, true) && rec.txTotal == Total(rows, false) &&
            rec.generation == NewestGeneration(rows) &&
            (rows != [] ==> (rec.valid <==> Sound(rows[..|rows| - 1], rows[|rows| - 1])))
  {
    var i := IndexOf(Run(capacity, ops).records, key).value;
    var rec := Run(capacity, ops).records[i];
    EveryRunAttributes(capacity, ops);
    assert Same(rec, Took(rec.key, rec.born, RowsFor(ops, rec.key)));
    TookStands(key, rec.born, RowsFor(ops, key));
  }

  /** In every run a row for a stored key is noted, with its deltas and as valid exactly when it is sound,
      in the round it came in, and not at all if its generation was already replaced. */
  lemma {:induction false} RowsAreNoted(capacity: nat, ops: seq<Op>, key: seq<byte>, row: Row)
    requires IndexOf(Run(capacity, ops).records, key).Some? && Dated(RowsFor(ops, key)) && row.firstSeen != 0
    ensures var s, t := Run(capacity, ops), Run(capacity, ops + [Update(key, row)]);
            var rows := RowsFor(ops, key);
            t.log == s.log + if row.firstSeen < NewestGeneration(rows) then []
                             else [Accepted(IndexOf(s.records, key).value, s.sequence,
                                            Sample(row.rxDelta, row.txDelta, Sound(rows, row)))]
  {
    var s := Run(capacity, ops);
    var i := IndexOf(s.records, key).value;
    var rec := s.records[i];
    RunOneMore(capacity, ops, Update(key, row));
    EveryRunAttributes(capacity, ops);
    assert Same(rec, Took(rec.key, rec.born, RowsFor(ops, rec.key)));
    TookStands(key, rec.born, RowsFor(ops, key));
    AcceptStands(rec, RowsFor(ops, key), row, SlotOf(s.sequence));
  }

  // ----- What a record shows

  /** What is shown besides the totals. */
  ghost predicate Shows(rec: Record, lastSeen: nat, rxRate: real, txRate: real, idle: real, archived: bool) {
    rec.lastSeen == lastSeen && rec.rxRate == rxRate && rec.txRate == txRate && rec.idle == idle &&
    rec.archived == archived
  }

  /** A row is shown by the record of its key, which is a new one at the end if there was none and there is
      room, and by no other; a late one shows nothing, and without a record it only marks the table full. */
  lemma {:induction false} RowsAreShown(capacity: nat, s: State, key: seq<byte>, row: Row, i: nat)
    requires WellFormed(s)
    requires i == match IndexOf(s.records, key) case Some(k) => k case None => |s.records|
    ensures var t, known := Step(capacity, s, Update(key, row)), IndexOf(s.records, key).Some?;
            t.sequence == s.sequence && t.frames == s.frames &&
            if !known && |s.records| >= capacity
            then t.records == s.records && t.full && t.log == s.log
            else
              |t.records| == (if known then |s.records| else |s.records| + 1) && t.full == s.full &&
              t.records[i].key == key && t.records[i].born == (if known then s.records[i].born else s.sequence) &&
              (forall j :: 0 <= j < |s.records| && j != i ==> t.records[j] == s.records[j]) &&
              if known && s.records[i].generation != 0 && row.firstSeen < s.records[i].generation
              then t.records[i] == s.records[i].(valid := false, archived := false)
              else Shows(t.records[i], row.lastSeen, row.rxRate, row.txRate, row.idle, false)
  {
    match IndexOf(s.records, key)
    case Some(k) => TotalsNeverDecrease(s.records[k], row, SlotOf(s.sequence));
    case None =>
  }

  /** A new round shows no rates, marks every record as archived and dates its idle time from its last row;
      totals, marks and everything else stay. */
  lemma {:induction false} RoundsAreShown(capacity: nat, s: State, timestamp: string, now: nat, elapsed: nat, i: nat)
    requires WellFormed(s) && i < |s.records|
    ensures var t := Step(capacity, s, Begin(timestamp, now, elapsed));
            |t.records| == |s.records| && t.sequence == s.sequence + 1 && t.full == s.full && t.log == s.log &&
            var r, seen := t.records[i], s.records[i].lastSeen;
            Shows(r, seen, 0.0, 0.0, if now > seen then (now - seen) as real / 1000000000.0 else 0.0, true) &&
            r == s.records[i].(samples := r.samples, rxRate := 0.0, txRate := 0.0, idle := r.idle, archived := true)
  {
    assert Consistent(s.records[i]);
  }

  // ----- Deltas

  /** A delta is a gap exactly when it cannot be told what came since the last sample: the counters fell,
      or they belong to a generation that did not begin since. Otherwise it is their growth, or all of
      them for a new generation. */
  lemma {:induction false} DeltaExactly(v: Value, previous: Option<Value>, since: nat)
    ensures var d := DeltaOf(v, previous, since);
            var known := previous.Some? && previous.value.firstSeen == v.firstSeen;
            (!d.gap <==> if known then v.rx >= previous.value.rx && v.tx >= previous.value.tx
                         else v.firstSeen != 0 && v.firstSeen >= since) &&
            (d.gap ==> d.rx == 0 && d.tx == 0) &&
            (!d.gap && known ==> d.rx + previous.value.rx == v.rx && d.tx + previous.value.tx == v.tx) &&
            (!d.gap && !known ==> d.rx == v.rx && d.tx == v.tx)
  {
  }

  /** A row carries what was read, its deltas, the rates that give the deltas over the interval, and the
      time since the counters last moved; it counts as valid unless there is a gap. */
  lemma {:induction false} RowExactly(v: Value, previous: Option<Value>, since: nat, now: nat)
    requires since <= now < U64
    ensures var row, d := RowOf(v, previous, since, now), DeltaOf(v, previous, since);
            row.firstSeen == v.firstSeen && row.lastSeen == v.lastSeen && row.rx == v.rx && row.tx == v.tx &&
            row.rxDelta == d.rx && row.txDelta == d.tx && (row.valid <==> !d.gap) &&
            (now == since ==> row.rxRate == 0.0 && row.txRate == 0.0) &&
            (now > since ==> row.rxRate * (now - since) as real == d.rx as real * 1000000000.0 &&
                             row.txRate * (now - since) as real == d.tx as real * 1000000000.0) &&
            (v.lastSeen < now ==> row.idle * 1000000000.0 == (now - v.lastSeen) as real) &&
            (v.lastSeen >= now ==> row.idle == 0.0)
  {
  }
}
