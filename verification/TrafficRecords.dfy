/** The records of the traffic history: generation-aware totals, the ring of the last sixty samples,
    and the delta function of the sampler that feeds them.  Counters are unbounded here. */
module TrafficRecords {
  import opened Wrappers
  import opened Bits

  const SAMPLES := 60

  datatype Sample = Sample(rx: nat, tx: nat, available: bool)

  const NO_SAMPLE := Sample(0, 0, false)

  /** A display row as the history reads it; `firstSeen` is the generation of the counters. */
  datatype Row = Row(
    firstSeen: nat, lastSeen: nat, rx: nat, tx: nat, rxDelta: nat, txDelta: nat,
    rxRate: real, txRate: real, idle: real, valid: bool)

  datatype Record = Record(
    key: seq<byte>, born: nat, rxBase: nat, txBase: nat, rxCounter: nat, txCounter: nat,
    generation: nat, rxTotal: nat, txTotal: nat, valid: bool, samples: seq<Sample>,
    lastSeen: nat, rxRate: real, txRate: real, idle: real, archived: bool)

  function Fresh(key: seq<byte>, sequence: nat): (r: Record)
    ensures |r.samples| == SAMPLES
  {
    Record(key, sequence, 0, 0, 0, 0, 0, 0, 0, false, seq(SAMPLES, _ => NO_SAMPLE),
           0, 0.0, 0.0, 0.0, false)
  }

  function Max(a: nat, b: nat): nat {
    if a < b then b else a
  }

  /** A snapshot of a generation that has already been replaced. */
  predicate Late(rec: Record, row: Row) {
    rec.generation != 0 && row.firstSeen < rec.generation
  }

  /** A new generation continues from the totals of the old one. */
  function Rebase(rec: Record, row: Row): Record {
    if rec.generation != 0 && rec.generation != row.firstSeen
    then rec.(rxBase := rec.rxTotal, txBase := rec.txTotal, rxCounter := 0, txCounter := 0) else rec
  }

  function Valid(rec: Record, row: Row): bool {
    var r := Rebase(rec, row);
    row.valid && !(row.rx < r.rxCounter || row.tx < r.txCounter)
  }

  /** traffic_history_update once the record is found; `slot` is the current place in the ring. */
  function Accept(rec: Record, row: Row, slot: nat): (r: Record)
    requires slot < SAMPLES == |rec.samples|
    ensures |r.samples| == SAMPLES && r.key == rec.key && r.born == rec.born
  {
    if Late(rec, row) then rec.(valid := false, archived := false)
    else
      var r := Rebase(rec, row);
      var rx, tx := Max(r.rxCounter, row.rx), Max(r.txCounter, row.tx);
      var valid := Valid(rec, row);
      r.(rxCounter := rx, txCounter := tx, generation := row.firstSeen,
         rxTotal := r.rxBase + rx, txTotal := r.txBase + tx, valid := valid,
         lastSeen := row.lastSeen, rxRate := row.rxRate, txRate := row.txRate, idle := row.idle, archived := false,
         samples := r.samples[slot := Sample(row.rxDelta, row.txDelta, valid)])
  }

  // ----- Totals

  ghost predicate Consistent(rec: Record) {
    |rec.samples| == SAMPLES && rec.rxTotal == rec.rxBase + rec.rxCounter && rec.txTotal == rec.txBase + rec.txCounter
  }

  /** Whatever arrives, be it a reset counter, a new generation or a late old one, the cumulative
      totals of a record never decrease. */
  lemma {:induction false} TotalsNeverDecrease(rec: Record, row: Row, slot: nat)
    requires Consistent(rec) && slot < SAMPLES
    ensures var r := Accept(rec, row, slot);
            Consistent(r) && r.rxTotal >= rec.rxTotal && r.txTotal >= rec.txTotal
  {
  }

  // ----- Deltas

  /** The counters of one flow or process as the kernel keeps them. */
  datatype Value = Value(firstSeen: nat, lastSeen: nat, rx: nat, tx: nat)

  datatype Delta = Delta(rx: nat, tx: nat, gap: bool)

  /** traffic_sample_deltas */
  function DeltaOf(v: Value, previous: Option<Value>, since: nat): Delta {
    if previous.Some? && v.firstSeen == previous.value.firstSeen then
      if v.rx < previous.value.rx || v.tx < previous.value.tx then Delta(0, 0, true)
      else Delta(v.rx - previous.value.rx, v.tx - previous.value.tx, false)
    else if v.firstSeen != 0 && v.firstSeen >= since then Delta(v.rx, v.tx, false)
    else Delta(0, 0, true)
  }

  /** How long nothing was seen. */
  function IdleSeconds(lastSeen: nat, now: nat): real {
    if now > lastSeen then (now - lastSeen) as real / 1_000_000_000.0 else 0.0
  }

  /** traffic_bytes_per_second */
  function PerSecond(delta: nat, elapsed: nat): real {
    if elapsed == 0 then 0.0 else delta as real * 1_000_000_000.0 / elapsed as real
  }

  /** traffic_display_counters */
  function RowOf(v: Value, previous: Option<Value>, since: nat, now: nat): Row {
    var d := DeltaOf(v, previous, since);
    var elapsed := (now - since) % U64;
    Row(v.firstSeen, v.lastSeen, v.rx, v.tx, d.rx, d.tx, PerSecond(d.rx, elapsed), PerSecond(d.tx, elapsed),
        IdleSeconds(v.lastSeen, now), !d.gap)
  }

  /** One round of a key: the value read, the sampling interval and the ring slot. */
  datatype Round = Round(value: Value, since: nat, now: nat, slot: nat)

  ghost function PreviousOf(rounds: seq<Round>): Option<Value> {
    if rounds == [] then None else Some(rounds[|rounds| - 1].value)
  }

  /** The record of a key that was sampled in every one of these rounds since it appeared. */
  ghost function Sampled(key: seq<byte>, born: nat, rounds: seq<Round>): (r: Record)
    requires forall i :: 0 <= i < |rounds| ==> rounds[i].slot < SAMPLES
    ensures |r.samples| == SAMPLES
  {
    if rounds == [] then Fresh(key, born)
    else
      var front, last := rounds[..|rounds| - 1], rounds[|rounds| - 1];
      Accept(Sampled(key, born, front), RowOf(last.value, PreviousOf(front), last.since, last.now), last.slot)
  }

  /** Every sample was valid when it was taken and was accepted as valid. */
  ghost predicate AllValid(key: seq<byte>, born: nat, rounds: seq<Round>)
    requires forall i :: 0 <= i < |rounds| ==> rounds[i].slot < SAMPLES
    decreases |rounds|
  {
    rounds == [] || (Sampled(key, born, rounds).valid && AllValid(key, born, rounds[..|rounds| - 1]))
  }

  ghost function DeltaSum(rounds: seq<Round>): Delta {
    if rounds == [] then Delta(0, 0, false)
    else
      var front, last := rounds[..|rounds| - 1], rounds[|rounds| - 1];
      var sum, d := DeltaSum(front), DeltaOf(last.value, PreviousOf(front), last.since);
      Delta(sum.rx + d.rx, sum.tx + d.tx, false)
  }

  /** For a key sampled every round with every sample valid, the total is the sum of all reported
      deltas, across any number of generation changes. */
  lemma {:induction false} TotalIsSumOfDeltas(key: seq<byte>, born: nat, rounds: seq<Round>)
    requires forall i :: 0 <= i < |rounds| ==> rounds[i].slot < SAMPLES
    requires AllValid(key, born, rounds)
    ensures Sampled(key, born, rounds).rxTotal == DeltaSum(rounds).rx
    ensures Sampled(key, born, rounds).txTotal == DeltaSum(rounds).tx
    ensures rounds != [] ==> Follows(Sampled(key, born, rounds), rounds[|rounds| - 1].value)
    decreases |rounds|
  {
    if rounds != [] {
      TotalIsSumOfDeltas(key, born, rounds[..|rounds| - 1]);
    }
  }

  /** The record stands exactly where the counters stood at the last sample. */
  ghost predicate Follows(rec: Record, v: Value) {
    rec.generation == v.firstSeen != 0 && rec.rxCounter == v.rx && rec.txCounter == v.tx && Consistent(rec)
  }

  // ----- The table of records

  /** What was accepted into a record in a round. */
  datatype Accepted = Accepted(record: nat, round: nat, sample: Sample)

  /** The heading of a round. */
  datatype Frame = Frame(sequence: nat, elapsed: nat, timestamp: string)

  const NO_FRAME := Frame(0, 0, "")

  datatype State = State(
    records: seq<Record>, sequence: nat, full: bool, frames: seq<Frame>, log: seq<Accepted>)

  datatype Op = Begin(timestamp: string, now: nat, elapsed: nat) | Update(key: seq<byte>, row: Row)

  function SlotOf(sequence: nat): (r: nat)
    ensures r < SAMPLES
  {
    if sequence == 0 then 15 else (sequence - 1) % SAMPLES
  }

  ghost predicate WellFormed(s: State) {
    |s.frames| == SAMPLES && forall i :: 0 <= i < |s.records| ==> Consistent(s.records[i])
  }

  /** The index of the record with this key, if there is one. */
  function IndexOf(records: seq<Record>, key: seq<byte>): (r: Option<nat>)
    ensures r.Some? ==> r.value < |records| && records[r.value].key == key
    ensures r.None? ==> forall i :: 0 <= i < |records| ==> records[i].key != key
  {
    if records == [] then None
    else if records[|records| - 1].key == key then Some(|records| - 1)
    else IndexOf(records[..|records| - 1], key)
  }

  /** traffic_history_begin: a new round starts with its ring slot empty in every record. */
  function BeginRound(s: State, timestamp: string, now: nat, elapsed: nat): (t: State)
    requires WellFormed(s)
    ensures WellFormed(t) && |t.records| == |s.records|
  {
    var slot := s.sequence % SAMPLES;
    s.(sequence := s.sequence + 1, frames := s.frames[slot := HeadingOf(s.sequence + 1, timestamp, elapsed)],
       records := seq(|s.records|, i requires 0 <= i < |s.records| =>
                    Cleared(s.records[i], slot, now)))
  }

  /** The frame of a round; the timestamp is cut to the nineteen characters that fit. */
  function HeadingOf(sequence: nat, timestamp: string, elapsed: nat): Frame {
    Frame(sequence, elapsed, if |timestamp| > 19 then timestamp[..19] else timestamp)
  }

  /** A record that nothing came for yet in a new round. */
  function Cleared(rec: Record, slot: nat, now: nat): (r: Record)
    requires Consistent(rec) && slot < SAMPLES
    ensures Consistent(r)
  {
    rec.(samples := rec.samples[slot := NO_SAMPLE], rxRate := 0.0, txRate := 0.0, archived := true,
         idle := IdleSeconds(rec.lastSeen, now))
  }

  function Note(s: State, i: nat, row: Row): seq<Accepted>
    requires i < |s.records|
  {
    if Late(s.records[i], row) then []
    else [Accepted(i, s.sequence, Sample(row.rxDelta, row.txDelta, Valid(s.records[i], row)))]
  }

  /** The record at `i` takes a row in the current round. */
  function AcceptAt(s: State, i: nat, row: Row): (t: State)
    requires WellFormed(s) && i < |s.records|
    ensures WellFormed(t)
  {
    TotalsNeverDecrease(s.records[i], row, SlotOf(s.sequence));
    s.(records := s.records[i := Accept(s.records[i], row, SlotOf(s.sequence))], log := s.log + Note(s, i, row))
  }

  /** traffic_history_update, by the meaning of the index. */
  function UpdateKey(capacity: nat, s: State, key: seq<byte>, row: Row): (t: State)
    requires WellFormed(s)
    ensures WellFormed(t)
  {
    match IndexOf(s.records, key)
    case Some(i) => AcceptAt(s, i, row)
    case None =>
      if |s.records| >= capacity then s.(full := true)
      else AcceptAt(s.(records := s.records + [Fresh(key, s.sequence)]), |s.records|, row)
  }

  function Step(capacity: nat, s: State, op: Op): (t: State)
    requires WellFormed(s)
    ensures WellFormed(t)
  {
    match op
    case Begin(timestamp, now, elapsed) => BeginRound(s, timestamp, now, elapsed)
    case Update(key, row) => UpdateKey(capacity, s, key, row)
  }

  function Run(capacity: nat, ops: seq<Op>): (s: State)
    ensures WellFormed(s)
  {
    if ops == [] then State([], 0, false, seq(SAMPLES, _ => NO_FRAME), [])
    else Step(capacity, Run(capacity, ops[..|ops| - 1]), ops[|ops| - 1])
  }

  // ----- Records are stable and their totals grow

  ghost predicate Grown(a: seq<Record>, b: seq<Record>) {
    |a| <= |b| && forall i :: 0 <= i < |a| ==>
      b[i].key == a[i].key && b[i].born == a[i].born && b[i].rxTotal >= a[i].rxTotal && b[i].txTotal >= a[i].txTotal
  }

  lemma {:induction false} StepGrows(capacity: nat, s: State, op: Op)
    requires WellFormed(s)
    ensures Grown(s.records, Step(capacity, s, op).records)
  {
    if op.Update? {
      match IndexOf(s.records, op.key)
      case Some(i) => TotalsNeverDecrease(s.records[i], op.row, SlotOf(s.sequence));
      case None =>
    }
  }

  lemma {:induction false} GrownTransitive(a: seq<Record>, b: seq<Record>, c: seq<Record>)
    requires Grown(a, b) && Grown(b, c)
    ensures Grown(a, c)
  {
  }

  lemma {:induction false} RunOneMore(capacity: nat, ops: seq<Op>, op: Op)
    ensures Run(capacity, ops + [op]) == Step(capacity, Run(capacity, ops), op)
  {
    assert (ops + [op])[..|ops + [op]| - 1] == ops;
  }

  /** From any point of any run to any later point, records stay where they are, keep their key and
      never lose any of their totals. */
  lemma {:induction false} RunGrows(capacity: nat, ops: seq<Op>, more: seq<Op>)
    ensures Grown(Run(capacity, ops).records, Run(capacity, ops + more).records)
    decreases |more|
  {
    if more == [] {
      assert ops + more == ops;
    } else {
      var front, op := more[..|more| - 1], more[|more| - 1];
      assert ops + more == ops + front + [op];
      RunOneMore(capacity, ops + front, op);
      RunGrows(capacity, ops, front);
      StepGrows(capacity, Run(capacity, ops + front), op);
      var s, t := Run(capacity, ops), Run(capacity, ops + front);
      GrownTransitive(s.records, t.records, Run(capacity, ops + more).records);
    }
  }

  // ----- The sample ring agrees with the full log

  /** What was last accepted into a record in a round, or the empty sample. */
  ghost function LastAccepted(log: seq<Accepted>, record: nat, round: nat): Sample {
    if log == [] then NO_SAMPLE
    else
      var last := log[|log| - 1];
      if last.record == record && last.round == round then last.sample
      else LastAccepted(log[..|log| - 1], record, round)
  }

  /** For every record and each of the last sixty rounds since its birth the slot of that round
      holds what was last accepted then, or nothing. */
  ghost predicate RingAgrees(s: State)
    requires WellFormed(s)
  {
    forall i, r :: 0 <= i < |s.records| && 1 <= r <= s.sequence < r + SAMPLES && s.records[i].born <= r ==>
      s.records[i].samples[SlotOf(r)] == LastAccepted(s.log, i, r)
  }

  ghost predicate LogBounded(s: State) {
    (forall k :: 0 <= k < |s.log| ==> s.log[k].record < |s.records| && s.log[k].round <= s.sequence) &&
    forall i :: 0 <= i < |s.records| ==> s.records[i].born <= s.sequence
  }

  lemma {:induction false} NothingAccepted(log: seq<Accepted>, record: nat, round: nat)
    requires forall k :: 0 <= k < |log| ==> log[k].record != record || log[k].round != round
    ensures LastAccepted(log, record, round) == NO_SAMPLE
  {
    if log != [] { NothingAccepted(log[..|log| - 1], record, round); }
  }

  /** Two rounds of one window do not share a slot. */
  lemma {:induction false} SlotsDiffer(r: nat, now: nat)
    requires 1 <= r < now < r + SAMPLES
    ensures SlotOf(r) != SlotOf(now)
  {
    var p, q := (r - 1) / SAMPLES, (now - 1) / SAMPLES;
    assert (now - 1) - (r - 1) == SAMPLES * (q - p) + ((now - 1) % SAMPLES - (r - 1) % SAMPLES);
  }

  lemma {:induction false} BeginAgrees(s: State, timestamp: string, now: nat, elapsed: nat)
    requires WellFormed(s) && RingAgrees(s) && LogBounded(s)
    ensures var t := BeginRound(s, timestamp, now, elapsed);
            RingAgrees(t) && LogBounded(t)
  {
    var t := BeginRound(s, timestamp, now, elapsed);
    forall i, r | 0 <= i < |t.records| && 1 <= r <= t.sequence < r + SAMPLES && t.records[i].born <= r
      ensures t.records[i].samples[SlotOf(r)] == LastAccepted(t.log, i, r)
    {
      if r == t.sequence {
        NothingAccepted(t.log, i, r);
      } else {
        SlotsDiffer(r, t.sequence);
        assert t.records[i].samples[SlotOf(r)] == s.records[i].samples[SlotOf(r)];
      }
    }
  }

  lemma {:induction false} AcceptAgrees(s: State, i: nat, row: Row)
    requires WellFormed(s) && RingAgrees(s) && LogBounded(s) && i < |s.records|
    ensures RingAgrees(AcceptAt(s, i, row)) && LogBounded(AcceptAt(s, i, row))
  {
    var t := AcceptAt(s, i, row);
    forall k, r | 0 <= k < |t.records| && 1 <= r <= t.sequence < r + SAMPLES && t.records[k].born <= r
      ensures t.records[k].samples[SlotOf(r)] == LastAccepted(t.log, k, r)
    {
      assert s.records[k].samples[SlotOf(r)] == LastAccepted(s.log, k, r);
      if Late(s.records[i], row) {
        assert t.log == s.log;
      } else {
        assert t.log[..|s.log|] == s.log;
        if k == i && r < s.sequence { SlotsDiffer(r, s.sequence); }
      }
    }
  }

  lemma {:induction false} NewRecordAgrees(s: State, key: seq<byte>)
    requires WellFormed(s) && RingAgrees(s) && LogBounded(s)
    ensures var t := s.(records := s.records + [Fresh(key, s.sequence)]);
            WellFormed(t) && RingAgrees(t) && LogBounded(t)
  {
    var t := s.(records := s.records + [Fresh(key, s.sequence)]);
    forall k, r | 0 <= k < |t.records| && 1 <= r <= t.sequence < r + SAMPLES && t.records[k].born <= r
      ensures t.records[k].samples[SlotOf(r)] == LastAccepted(t.log, k, r)
    {
      if k == |s.records| {
        NothingAccepted(t.log, k, r);
      } else {
        assert s.records[k].samples[SlotOf(r)] == LastAccepted(s.log, k, r);
      }
    }
  }

  /** In every run the ring agrees with the full log: no slot ever shows a value left from sixty
      rounds earlier. */
  lemma {:induction false} RunRingAgrees(capacity: nat, ops: seq<Op>)
    ensures RingAgrees(Run(capacity, ops)) && LogBounded(Run(capacity, ops))
    decreases |ops|
  {
    if ops != [] {
      RunRingAgrees(capacity, ops[..|ops| - 1]);
      var s := Run(capacity, ops[..|ops| - 1]);
      match ops[|ops| - 1]
      case Begin(timestamp, now, elapsed) => BeginAgrees(s, timestamp, now, elapsed);
      case Update(key, row) =>
        match IndexOf(s.records, key) {
          case Some(i) => AcceptAgrees(s, i, row);
          case None =>
            if |s.records| < capacity {
              NewRecordAgrees(s, key);
              AcceptAgrees(s.(records := s.records + [Fresh(key, s.sequence)]), |s.records|, row);
            }
        }
    }
  }

  // ----- The frames agree with the rounds

  /** The headings of all rounds so far. */
  ghost function Headings(ops: seq<Op>): seq<Frame> {
    if ops == [] then []
    else
      var front, last := Headings(ops[..|ops| - 1]), ops[|ops| - 1];
      if last.Begin? then front + [HeadingOf(|front| + 1, last.timestamp, last.elapsed)] else front
  }

  ghost predicate FramesAgree(s: State, headings: seq<Frame>)
    requires WellFormed(s)
  {
    |headings| == s.sequence &&
    forall r :: 1 <= r <= s.sequence < r + SAMPLES ==> s.frames[SlotOf(r)] == headings[r - 1]
  }

  /** In every run the frame of each of the last sixty rounds is the heading of that very round. */
  lemma {:induction false} RunFramesAgree(capacity: nat, ops: seq<Op>)
    ensures FramesAgree(Run(capacity, ops), Headings(ops))
  {
    if ops != [] {
      var front, last := ops[..|ops| - 1], ops[|ops| - 1];
      RunFramesAgree(capacity, front);
      if last.Begin? {
        BeginFrames(Run(capacity, front), Headings(front), last.timestamp, last.now, last.elapsed);
      }
    }
  }

  lemma {:induction false} BeginFrames(s: State, headings: seq<Frame>, timestamp: string, now: nat, elapsed: nat)
    requires WellFormed(s) && FramesAgree(s, headings)
    ensures FramesAgree(BeginRound(s, timestamp, now, elapsed),
                        headings + [HeadingOf(s.sequence + 1, timestamp, elapsed)])
  {
    var t := BeginRound(s, timestamp, now, elapsed);
    var more := headings + [HeadingOf(s.sequence + 1, timestamp, elapsed)];
    forall r | 1 <= r <= t.sequence < r + SAMPLES ensures t.frames[SlotOf(r)] == more[r - 1] {
      if r < t.sequence { SlotsDiffer(r, t.sequence); }
    }
  }
}
