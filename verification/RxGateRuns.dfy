/** Every run of the RX ownership gate: shape, provenance, soundness, completeness and
    conservation, kept by every step and hence true in every reachable state. */
module RxGateRuns {
  import opened RxGate

  // ----- What holds in every reachable state

  /** Sorted by time, and in order of arrival among equal times. */
  ghost predicate StablySorted(list: seq<Entry>) {
    forall i, j {:trigger Before(list[i], list[j])} :: 0 <= i < j < |list| ==> Before(list[i], list[j])
  }

  ghost predicate Before(a: Entry, b: Entry) {
    a.detail.ts < b.detail.ts || (a.detail.ts == b.detail.ts && a.arrival < b.arrival)
  }

  ghost predicate WithinLimits(l: Limits, list: seq<Entry>)
    requires l.Ok()
  {
    |list| <= l.maxEvents &&
    (list != [] ==> Bytes(l, list) + l.ownersBytes <= l.maxBytes)
  }

  /** Every queued event is at most one window older than the watermark, and never newer. */
  ghost predicate WithinWindow(l: Limits, list: seq<Entry>, watermark: nat) {
    forall i :: 0 <= i < |list| ==>
      list[i].detail.ts <= watermark <= list[i].detail.ts + l.window
  }

  ghost predicate Queued(history: seq<Event>, e: Entry) {
    e.arrival < |history| && history[e.arrival] == Event(e.cpu, e.size, e.detail) &&
    e.detail.ownerPending && Trackable(e.detail)
  }

  ghost predicate QueueFromHistory(list: seq<Entry>, history: seq<Event>, watermark: nat, n: nat) {
    forall i :: 0 <= i < |list| ==>
      list[i].arrival < n && Queued(history, list[i]) && list[i].detail.ts <= watermark
  }

  /** `h` is a fed event that directly names the owner `o`. */
  ghost predicate Names(history: seq<Event>, h: nat, o: Owner) {
    h < |history| && IsEvidence(history[h].detail) && EvidenceOf(history[h].detail) == o
  }

  /** A slot is empty or holds the owner named by some fed event of that very slot. */
  ghost predicate OwnersFromHistory(l: Limits, owners: seq<Owner>, history: seq<Event>)
    requires l.Ok()
  {
    |owners| == l.slots &&
    forall k :: 0 <= k < l.slots && owners[k].key != 0 ==>
      Slot(l, owners[k].key, owners[k].generation) == k && exists h :: Names(history, h, owners[k])
  }

  /** `o` is the owner named by a fed event about the same buffer instance as `d`, dated
      between the time of `d` and one window later. */
  ghost predicate Justified(l: Limits, history: seq<Event>, d: Detail, o: Owner) {
    Matches(l, d, o) && exists h :: Names(history, h, o)
  }

  ghost predicate OutcomeSound(l: Limits, history: seq<Event>, watermark: nat, o: Outcome) {
    o.arrival < |history| &&
    var d := history[o.arrival].detail;
    match o.kind
    case Passed => !d.ownerPending && o.detail == d
    case Replayed =>
      d.ownerPending && Trackable(d) &&
      exists owner :: Justified(l, history, d, owner) && o.detail == Apply(d, owner)
    case Expired => d.ownerPending && Trackable(d) && o.detail == d && Stale(l, watermark, d.ts)
    case CapacityDropped => d.ownerPending && Trackable(d) && o.detail == d
    case Unresolved => d.ownerPending && o.detail == d
  }

  ghost predicate LogSound(l: Limits, history: seq<Event>, watermark: nat, log: seq<Outcome>) {
    forall i :: 0 <= i < |log| ==> OutcomeSound(l, history, watermark, log[i])
  }

  /** No queued event matches the evidence now held in its own slot. */
  ghost predicate NothingOverlooked(l: Limits, list: seq<Entry>, owners: seq<Owner>)
    requires l.Ok() && |owners| == l.slots
  {
    forall i :: 0 <= i < |list| ==> !Matches(l, list[i].detail, OwnSlot(l, owners, list[i].detail))
  }

  ghost function OwnSlot(l: Limits, owners: seq<Owner>, d: Detail): Owner
    requires l.Ok() && |owners| == l.slots
  {
    owners[Slot(l, d.key, d.generation)]
  }

  ghost function QueueArrivals(list: seq<Entry>): seq<nat> {
    seq(|list|, i requires 0 <= i < |list| => list[i].arrival)
  }

  ghost function LogArrivals(log: seq<Outcome>): seq<nat> {
    seq(|log|, i requires 0 <= i < |log| => log[i].arrival)
  }

  ghost function FirstNumbers(n: nat): seq<nat> {
    seq(n, i => i)
  }

  /** The records fed so far are exactly the queued ones and those with an outcome, each once. */
  ghost predicate Accounted(s: State, n: nat) {
    multiset(QueueArrivals(s.list)) + multiset(LogArrivals(s.log)) == multiset(FirstNumbers(n))
  }

  ghost function CountKind(log: seq<Outcome>, kind: Kind): nat {
    if log == [] then 0
    else CountKind(log[..|log| - 1], kind) + (if log[|log| - 1].kind == kind then 1 else 0)
  }

  ghost predicate CountersAgree(s: State) {
    s.replayed == CountKind(s.log, Replayed) && s.expired == CountKind(s.log, Expired) &&
    s.capacityDropped == CountKind(s.log, CapacityDropped) && s.unresolved == CountKind(s.log, Unresolved)
  }

  ghost function CountPending(history: seq<Event>): nat {
    if history == [] then 0
    else CountPending(history[..|history| - 1]) +
         (if history[|history| - 1].detail.ownerPending then 1 else 0)
  }

  /** Pending events fed = replayed + expired + capacity-dropped + unresolved + still queued. */
  ghost predicate Conserved(s: State, n: nat)
    requires n <= |s.history|
  {
    CountPending(s.history[..n]) ==
    s.replayed + s.expired + s.capacityDropped + s.unresolved + |s.list|
  }

  /** Everything that also holds in the middle of a step, when `n` records are accounted for. */
  ghost predicate Base(l: Limits, s: State, n: nat)
    requires l.Ok()
  {
    n <= |s.history| && StablySorted(s.list) && WithinLimits(l, s.list) &&
    QueueFromHistory(s.list, s.history, s.watermark, n) && OwnersFromHistory(l, s.owners, s.history) &&
    LogSound(l, s.history, s.watermark, s.log) && Accounted(s, n) && CountersAgree(s) && Conserved(s, n)
  }

  ghost predicate Settled(l: Limits, s: State)
    requires l.Ok() && |s.owners| == l.slots
  {
    WithinWindow(l, s.list, s.watermark) && NothingOverlooked(l, s.list, s.owners)
  }

  ghost predicate Invariant(l: Limits, s: State)
    requires l.Ok()
  {
    Base(l, s, |s.history|) && Settled(l, s)
  }

  // ----- Unlinking one entry

  lemma {:induction false} BytesWithout(l: Limits, list: seq<Entry>, i: nat)
    requires l.Ok() && i < |list|
    ensures Bytes(l, list) == Bytes(l, list[..i] + list[i + 1..]) + l.Allocation(list[i].size)
    decreases |list|
  {
    var last := |list| - 1;
    var rest := list[..i] + list[i + 1..];
    if i == last {
      assert rest == list[..last];
    } else {
      BytesWithout(l, list[..last], i);
      assert rest[..|rest| - 1] == list[..last][..i] + list[..last][i + 1..];
      assert rest[|rest| - 1] == list[last];
    }
  }

  lemma {:induction false} SameBytes(l: Limits, a: seq<Entry>, b: seq<Entry>)
    requires l.Ok() && |a| == |b| && forall i :: 0 <= i < |a| ==> a[i].size == b[i].size
    ensures Bytes(l, a) == Bytes(l, b)
  {
    if a != [] {
      SameBytes(l, a[..|a| - 1], b[..|b| - 1]);
    }
  }

  lemma {:induction false} DropAccounts(s: State, i: nat, kind: Kind, detail: Detail, n: nat)
    requires i < |s.list| && Accounted(s, n)
    ensures Accounted(Drop(s, i, kind, detail), n)
  {
    var t := Drop(s, i, kind, detail);
    var a := s.list[i].arrival;
    assert QueueArrivals(s.list) == QueueArrivals(s.list[..i]) + [a] + QueueArrivals(s.list[i + 1..]);
    assert QueueArrivals(t.list) == QueueArrivals(s.list[..i]) + QueueArrivals(s.list[i + 1..]);
    assert LogArrivals(t.log) == LogArrivals(s.log) + [a];
  }

  lemma {:induction false} CountOne(log: seq<Outcome>, o: Outcome, kind: Kind)
    ensures CountKind(log + [o], kind) == CountKind(log, kind) + if o.kind == kind then 1 else 0
  {
    assert (log + [o])[..|log + [o]| - 1] == log;
  }

  lemma {:induction false} RecordCounts(s: State, kind: Kind, arrival: nat, detail: Detail)
    requires CountersAgree(s)
    ensures CountersAgree(Record(s, kind, arrival, detail))
  {
    var o := Outcome(arrival, kind, detail);
    CountOne(s.log, o, Replayed);
    CountOne(s.log, o, Expired);
    CountOne(s.log, o, CapacityDropped);
    CountOne(s.log, o, Unresolved);
  }

  lemma {:induction false} DropKeeps(l: Limits, s: State, i: nat, kind: Kind, detail: Detail, n: nat)
    requires l.Ok() && Base(l, s, n) && i < |s.list|
    requires OutcomeSound(l, s.history, s.watermark, Outcome(s.list[i].arrival, kind, detail))
    ensures Base(l, Drop(s, i, kind, detail), n)
  {
    DropAccounts(s, i, kind, detail, n);
    BytesWithout(l, s.list, i);
    RecordCounts(s.(list := s.list[..i] + s.list[i + 1..]), kind, s.list[i].arrival, detail);
    SublistSorted(s.list, i);
    SublistFromHistory(s.list, i, s.history, s.watermark, n);
  }

  lemma {:induction false} SublistFromHistory(list: seq<Entry>, i: nat, history: seq<Event>, watermark: nat, n: nat)
    requires i < |list| && QueueFromHistory(list, history, watermark, n)
    ensures QueueFromHistory(list[..i] + list[i + 1..], history, watermark, n)
  {
    var t := list[..i] + list[i + 1..];
    assert forall k :: 0 <= k < |t| ==> t[k] == list[if k < i then k else k + 1];
  }

  lemma {:induction false} SublistSettled(l: Limits, s: State, i: nat, kind: Kind, detail: Detail, evidence: Owner)
    requires l.Ok() && |s.owners| == l.slots && i < |s.list|
    ensures var t := Drop(s, i, kind, detail);
            (WithinWindow(l, s.list, s.watermark) ==> WithinWindow(l, t.list, t.watermark)) &&
            (NothingOverlooked(l, s.list, s.owners) ==> NothingOverlooked(l, t.list, t.owners)) &&
            (OverlookedOnly(l, s.list, s.owners, evidence) ==> OverlookedOnly(l, t.list, t.owners, evidence))
  {
    var t := Drop(s, i, kind, detail);
    assert forall k :: 0 <= k < |t.list| ==> t.list[k] == s.list[if k < i then k else k + 1];
  }

  lemma {:induction false} SublistSorted(list: seq<Entry>, i: nat)
    requires i < |list| && StablySorted(list)
    ensures StablySorted(list[..i] + list[i + 1..])
  {
    var t := list[..i] + list[i + 1..];
    forall a, b | 0 <= a < b < |t| ensures Before(t[a], t[b]) {
      assert Before(list[if a < i then a else a + 1], list[if b < i then b else b + 1]);
    }
  }

  // ----- The loops

  lemma {:induction false} ExpireLoopKeepsBase(l: Limits, s: State, n: nat)
    requires l.Ok() && Base(l, s, n)
    ensures Base(l, ExpireLoop(l, s), n)
    ensures WithinWindow(l, ExpireLoop(l, s).list, ExpireLoop(l, s).watermark)
    ensures NothingOverlooked(l, s.list, s.owners) ==>
              NothingOverlooked(l, ExpireLoop(l, s).list, ExpireLoop(l, s).owners)
    decreases |s.list|
  {
    if s.list != [] && Stale(l, s.watermark, s.list[0].detail.ts) {
      assert Queued(s.history, s.list[0]);
      DropKeeps(l, s, 0, Expired, s.list[0].detail, n);
      SublistSettled(l, s, 0, Expired, s.list[0].detail, NO_OWNER);
      ExpireLoopKeepsBase(l, DropHead(s, Expired), n);
    } else {
      forall i | 0 <= i < |s.list|
        ensures s.list[i].detail.ts <= s.watermark <= s.list[i].detail.ts + l.window
      {
        if i > 0 { assert Before(s.list[0], s.list[i]); }
      }
    }
  }

  lemma {:induction false} EvictLoopKeeps(l: Limits, s: State, allocation: nat, n: nat)
    requires l.Ok() && allocation + l.ownersBytes <= l.maxBytes && Base(l, s, n)
    requires Settled(l, s)
    ensures var t := EvictLoop(l, s, allocation);
            Base(l, t, n) && Settled(l, t) &&
            !Full(l, t, allocation) && t.watermark == s.watermark && t.history == s.history &&
            t.owners == s.owners
    decreases |s.list|
  {
    if Full(l, s, allocation) {
      assert Queued(s.history, s.list[0]);
      DropKeeps(l, s, 0, CapacityDropped, s.list[0].detail, n);
      SublistSettled(l, s, 0, CapacityDropped, s.list[0].detail, NO_OWNER);
      EvictLoopKeeps(l, DropHead(s, CapacityDropped), allocation, n);
    }
  }

  lemma {:induction false} FinishLoopKeeps(l: Limits, s: State, n: nat)
    requires l.Ok() && Base(l, s, n)
    ensures Base(l, FinishLoop(s), n) && FinishLoop(s).list == []
    ensures FinishLoop(s).history == s.history && FinishLoop(s).watermark == s.watermark
    decreases |s.list|
  {
    if s.list != [] {
      assert Queued(s.history, s.list[0]);
      DropKeeps(l, s, 0, Unresolved, s.list[0].detail, n);
      FinishLoopKeeps(l, DropHead(s, Unresolved), n);
    }
  }

  /** Only the new evidence can match a queued event in its own slot. */
  ghost predicate OverlookedOnly(l: Limits, list: seq<Entry>, owners: seq<Owner>, evidence: Owner)
    requires l.Ok() && |owners| == l.slots
  {
    forall i :: 0 <= i < |list| && Matches(l, list[i].detail, OwnSlot(l, owners, list[i].detail)) ==>
      Matches(l, list[i].detail, evidence)
  }

  lemma {:induction false} ReplayOne(l: Limits, s: State, i: nat, evidence: Owner, h: nat, n: nat)
    requires l.Ok() && Base(l, s, n) && i < |s.list| && Names(s.history, h, evidence)
    requires Matches(l, s.list[i].detail, evidence)
    ensures Base(l, Drop(s, i, Replayed, Apply(s.list[i].detail, evidence)), n)
  {
    assert Queued(s.history, s.list[i]);
    assert Justified(l, s.history, s.list[i].detail, evidence);
    DropKeeps(l, s, i, Replayed, Apply(s.list[i].detail, evidence), n);
  }

  ghost predicate NoneMatches(l: Limits, list: seq<Entry>, i: nat, evidence: Owner)
    requires i <= |list|
  {
    forall k :: 0 <= k < i ==> !Matches(l, list[k].detail, evidence)
  }

  lemma {:induction false} ReplayLoopKeeps(l: Limits, s: State, i: nat, evidence: Owner, h: nat, n: nat)
    requires l.Ok() && Base(l, s, n) && i <= |s.list| && Names(s.history, h, evidence)
    ensures var t := ReplayLoop(l, s, i, evidence);
            Base(l, t, n) && t.watermark == s.watermark && t.history == s.history && t.owners == s.owners
    decreases |s.list| - i
  {
    if i < |s.list| {
      if Matches(l, s.list[i].detail, evidence) {
        ReplayOne(l, s, i, evidence, h, n);
        var t := Drop(s, i, Replayed, Apply(s.list[i].detail, evidence));
        assert ReplayLoop(l, s, i, evidence) == ReplayLoop(l, t, i, evidence);
        ReplayLoopKeeps(l, t, i, evidence, h, n);
      } else {
        ReplayLoopKeeps(l, s, i + 1, evidence, h, n);
      }
    }
  }

  lemma {:induction false} ReplayLoopSettles(l: Limits, s: State, i: nat, evidence: Owner)
    requires l.Ok() && |s.owners| == l.slots && i <= |s.list|
    requires WithinWindow(l, s.list, s.watermark) && OverlookedOnly(l, s.list, s.owners, evidence)
    requires NoneMatches(l, s.list, i, evidence)
    ensures ReplayLoop(l, s, i, evidence).owners == s.owners
    ensures Settled(l, ReplayLoop(l, s, i, evidence))
    decreases |s.list| - i
  {
    if i < |s.list| {
      if Matches(l, s.list[i].detail, evidence) {
        var t := Drop(s, i, Replayed, Apply(s.list[i].detail, evidence));
        SublistSettled(l, s, i, Replayed, Apply(s.list[i].detail, evidence), evidence);
        assert t.list[..i] == s.list[..i];
        ReplayLoopSettles(l, t, i, evidence);
      } else {
        ReplayLoopSettles(l, s, i + 1, evidence);
      }
    }
  }

  // ----- Accounting for the record being fed

  lemma {:induction false} NextNumber(n: nat)
    ensures multiset(FirstNumbers(n + 1)) == multiset(FirstNumbers(n)) + multiset{n}
  {
    assert FirstNumbers(n + 1) == FirstNumbers(n) + [n];
  }

  lemma {:induction false} RecordAccounts(s: State, kind: Kind, n: nat, detail: Detail)
    requires Accounted(s, n)
    ensures Accounted(Record(s, kind, n, detail), n + 1)
  {
    NextNumber(n);
    assert LogArrivals(Record(s, kind, n, detail).log) == LogArrivals(s.log) + [n];
  }

  lemma {:induction false} NextPending(history: seq<Event>, n: nat)
    requires n < |history|
    ensures CountPending(history[..n + 1]) ==
            CountPending(history[..n]) + if history[n].detail.ownerPending then 1 else 0
  {
    assert history[..n + 1][..n] == history[..n];
  }

  lemma {:induction false} RecordSound(l: Limits, s: State, kind: Kind, n: nat, detail: Detail)
    requires LogSound(l, s.history, s.watermark, s.log)
    requires OutcomeSound(l, s.history, s.watermark, Outcome(n, kind, detail))
    ensures LogSound(l, s.history, s.watermark, Record(s, kind, n, detail).log)
    ensures kind == Passed <==> !s.history[n].detail.ownerPending
  {
  }

  lemma {:induction false} RecordKeeps(l: Limits, s: State, kind: Kind, n: nat, detail: Detail)
    requires l.Ok() && Base(l, s, n) && n < |s.history|
    requires OutcomeSound(l, s.history, s.watermark, Outcome(n, kind, detail))
    ensures Base(l, Record(s, kind, n, detail), n + 1)
  {
    RecordCounts(s, kind, n, detail);
    RecordAccounts(s, kind, n, detail);
    RecordSound(l, s, kind, n, detail);
    NextPending(s.history, n);
  }

  lemma {:induction false} BytesInsert(l: Limits, list: seq<Entry>, p: nat, e: Entry)
    requires l.Ok() && p <= |list|
    ensures Bytes(l, list[..p] + [e] + list[p..]) == Bytes(l, list) + l.Allocation(e.size)
  {
    var longer := list[..p] + [e] + list[p..];
    BytesWithout(l, longer, p);
    assert longer[..p] + longer[p + 1..] == list;
  }

  lemma {:induction false} InsertSorted(list: seq<Entry>, e: Entry)
    requires StablySorted(list) && forall i :: 0 <= i < |list| ==> list[i].arrival < e.arrival
    ensures var p := InsertPosition(list, 0, e.detail.ts);
            StablySorted(list[..p] + [e] + list[p..])
  {
    var p := InsertPosition(list, 0, e.detail.ts);
    var t := list[..p] + [e] + list[p..];
    forall i, j | 0 <= i < j < |t| ensures Before(t[i], t[j]) {
      if i != p && j != p {
        assert Before(list[if i < p then i else i - 1], list[if j < p then j else j - 1]);
      } else if i == p && j > p + 1 {
        assert Before(list[p], list[j - 1]);
      }
    }
  }

  lemma {:induction false} InsertAccounts(s: State, e: Entry, n: nat)
    requires Accounted(s, n) && e.arrival == n
    ensures Accounted(Insert(s, e), n + 1)
  {
    var p := InsertPosition(s.list, 0, e.detail.ts);
    NextNumber(n);
    assert QueueArrivals(Insert(s, e).list) == QueueArrivals(s.list[..p]) + [n] + QueueArrivals(s.list[p..]);
    assert QueueArrivals(s.list) == QueueArrivals(s.list[..p]) + QueueArrivals(s.list[p..]);
  }

  lemma {:induction false} InsertSettles(l: Limits, s: State, e: Entry)
    requires l.Ok() && |s.owners| == l.slots && Settled(l, s)
    requires e.detail.ts <= s.watermark <= e.detail.ts + l.window
    requires !Matches(l, e.detail, OwnSlot(l, s.owners, e.detail))
    ensures Settled(l, Insert(s, e))
  {
    var p := InsertPosition(s.list, 0, e.detail.ts);
    var t := Insert(s, e).list;
    assert forall k :: 0 <= k < |t| ==> t[k] == if k < p then s.list[k] else if k == p then e else s.list[k - 1];
  }

  lemma {:induction false} InsertFromHistory(s: State, e: Entry, n: nat)
    requires QueueFromHistory(s.list, s.history, s.watermark, n)
    requires e.arrival == n && Queued(s.history, e) && e.detail.ts <= s.watermark
    ensures QueueFromHistory(Insert(s, e).list, s.history, s.watermark, n + 1)
  {
    var p := InsertPosition(s.list, 0, e.detail.ts);
    var t := Insert(s, e).list;
    assert forall k :: 0 <= k < |t| ==> t[k] == if k < p then s.list[k] else if k == p then e else s.list[k - 1];
  }

  lemma {:induction false} InsertKeeps(l: Limits, s: State, e: Entry, n: nat)
    requires l.Ok() && Base(l, s, n) && n < |s.history| && e.arrival == n
    requires Queued(s.history, e) && e.detail.ts <= s.watermark
    requires !Full(l, s, l.Allocation(e.size))
    ensures Base(l, Insert(s, e), n + 1)
  {
    InsertSorted(s.list, e);
    BytesInsert(l, s.list, InsertPosition(s.list, 0, e.detail.ts), e);
    InsertAccounts(s, e, n);
    InsertFromHistory(s, e, n);
    NextPending(s.history, n);
  }

  // ----- One step

  /** Feeding a record first appends it to the history, which changes nothing else. */
  lemma {:induction false} HistoryGrows(l: Limits, s: State, e: Event)
    requires l.Ok() && Invariant(l, s)
    ensures var t := s.(history := s.history + [e]); Base(l, t, |s.history|) && NothingOverlooked(l, t.list, t.owners)
  {
    var t := s.(history := s.history + [e]);
    assert t.history[..|s.history|] == s.history[..|s.history|];
    forall i | 0 <= i < |s.log| ensures OutcomeSound(l, t.history, t.watermark, t.log[i]) {
      SoundLater(l, s.history, e, s.watermark, s.watermark, s.log[i]);
    }
    forall k | 0 <= k < l.slots && s.owners[k].key != 0 ensures exists h :: Names(t.history, h, t.owners[k]) {
      var h :| Names(s.history, h, s.owners[k]);
      assert Names(t.history, h, t.owners[k]);
    }
  }

  lemma {:induction false} SoundLater(l: Limits, history: seq<Event>, e: Event, w: nat, w': nat, o: Outcome)
    requires OutcomeSound(l, history, w, o) && w <= w'
    ensures OutcomeSound(l, history, w', o) && OutcomeSound(l, history + [e], w', o)
  {
    if o.kind == Replayed {
      var d := history[o.arrival].detail;
      var owner :| Justified(l, history, d, owner) && o.detail == Apply(d, owner);
      var h :| Names(history, h, owner);
      assert Names(history + [e], h, owner);
      assert Justified(l, history + [e], d, owner);
    }
  }

  lemma {:induction false} ExpireKeepsInvariant(l: Limits, s: State, ts: nat, n: nat)
    requires l.Ok() && Base(l, s, n) && NothingOverlooked(l, s.list, s.owners)
    ensures var t := Expire(l, s, ts);
            Base(l, t, n) && Settled(l, t) &&
            t.history == s.history && ts <= t.watermark
  {
    var s1 := if ts > s.watermark then s.(watermark := ts) else s;
    forall i | 0 <= i < |s.log| ensures OutcomeSound(l, s1.history, s1.watermark, s1.log[i]) {
      SoundLater(l, s.history, Event(0, 0, s.log[i].detail), s.watermark, s1.watermark, s.log[i]);
    }
    ExpireLoopKeepsBase(l, s1, n);
  }

  lemma {:induction false} EvidenceKept(l: Limits, s: State, d: Detail, n: nat)
    requires l.Ok() && Base(l, s, n) && Settled(l, s)
    requires n < |s.history| && s.history[n].detail == d && IsEvidence(d)
    ensures Names(s.history, n, EvidenceOf(d))
    ensures var s1 := s.(owners := s.owners[Slot(l, d.key, d.generation) := EvidenceOf(d)]);
            Base(l, s1, n) && OverlookedOnly(l, s1.list, s1.owners, EvidenceOf(d))
  {
    var s1 := s.(owners := s.owners[Slot(l, d.key, d.generation) := EvidenceOf(d)]);
    assert Names(s.history, n, EvidenceOf(d));
    assert OwnersFromHistory(l, s1.owners, s1.history);
  }

  lemma {:induction false} FeedEvidenceKeeps(l: Limits, s: State, d: Detail, n: nat)
    requires l.Ok() && Base(l, s, n) && Settled(l, s)
    requires n < |s.history| && s.history[n].detail == d && IsEvidence(d)
    ensures var t := FeedEvidence(l, s, d);
            Base(l, t, n) && Settled(l, t) &&
            t.watermark == s.watermark && t.history == s.history
  {
    var slot := Slot(l, d.key, d.generation);
    var evidence := EvidenceOf(d);
    var s1 := s.(owners := s.owners[slot := evidence]);
    EvidenceKept(l, s, d, n);
    var held := s.owners[slot];
    if held.key != evidence.key || held.generation != evidence.generation ||
       held.timestamp <= evidence.timestamp {
      ReplayLoopKeeps(l, s1, 0, evidence, n, n);
      ReplayLoopSettles(l, s1, 0, evidence);
    } else {
      ReplayLoopKeeps(l, s, 0, evidence, n, n);
      ReplayLoopSettles(l, s, 0, evidence);
    }
  }

  lemma {:induction false} FeedPendingKeeps(l: Limits, s: State, e: Event, mallocOk: bool, n: nat)
    requires l.Ok() && Base(l, s, n) && Settled(l, s)
    requires |s.history| == n + 1 && s.history[n] == e && l.detailBytes <= e.size
    requires e.detail.ownerPending && Trackable(e.detail) && e.detail.ts <= s.watermark
    ensures Invariant(l, FeedPending(l, s, n, e, mallocOk))
  {
    var d := e.detail;
    var allocation := l.Allocation(e.size);
    var owner := OwnSlot(l, s.owners, d);
    if Stale(l, s.watermark, d.ts) {
      RecordKeeps(l, s, Expired, n, d);
    } else if allocation + l.ownersBytes > l.maxBytes || !mallocOk {
      RecordKeeps(l, s, CapacityDropped, n, d);
    } else if Matches(l, d, owner) {
      assert Justified(l, s.history, d, owner);
      RecordKeeps(l, s, Replayed, n, Apply(d, owner));
    } else {
      EvictLoopKeeps(l, s, allocation, n);
      var t := EvictLoop(l, s, allocation);
      InsertKeeps(l, t, Entry(n, e.cpu, e.size, d), n);
      InsertSettles(l, t, Entry(n, e.cpu, e.size, d));
    }
  }

  /** Dropping heads leaves a sorted list sorted. */
  lemma {:induction false} ExpireLoopSorted(l: Limits, s: State)
    requires StablySorted(s.list)
    ensures StablySorted(ExpireLoop(l, s).list)
    decreases |s.list|
  {
    if s.list != [] && Stale(l, s.watermark, s.list[0].detail.ts) {
      SublistSorted(s.list, 0);
      ExpireLoopSorted(l, DropHead(s, Expired));
    }
  }

  lemma {:induction false} ExpireSorted(l: Limits, s: State, ts: nat)
    requires StablySorted(s.list)
    ensures StablySorted(Expire(l, s, ts).list)
  {
    ExpireLoopSorted(l, if ts > s.watermark then s.(watermark := ts) else s);
  }

  lemma {:induction false} EvictLoopSorted(l: Limits, s: State, allocation: nat)
    requires l.Ok() && allocation + l.ownersBytes <= l.maxBytes && StablySorted(s.list)
    ensures StablySorted(EvictLoop(l, s, allocation).list)
    decreases |s.list|
  {
    if Full(l, s, allocation) {
      SublistSorted(s.list, 0);
      EvictLoopSorted(l, DropHead(s, CapacityDropped), allocation);
    }
  }

  lemma {:induction false} FeedStepKeeps(l: Limits, s: State, e: Event, mallocOk: bool)
    requires l.Ok() && Invariant(l, s)
    ensures Invariant(l, FeedStep(l, s, e, mallocOk))
  {
    if e.size >= l.detailBytes {
      var n := |s.history|;
      var d := e.detail;
      HistoryGrows(l, s, e);
      var s0 := s.(history := s.history + [e]);
      ExpireKeepsInvariant(l, s0, d.ts, n);
      DispatchKeeps(l, Expire(l, s0, d.ts), e, mallocOk, n);
    }
  }

  lemma {:induction false} DispatchKeeps(l: Limits, s: State, e: Event, mallocOk: bool, n: nat)
    requires l.Ok() && Base(l, s, n) && Settled(l, s)
    requires |s.history| == n + 1 && s.history[n] == e && l.detailBytes <= e.size && e.detail.ts <= s.watermark
    ensures Invariant(l, DispatchStep(l, s, n, e, mallocOk))
  {
    var d := e.detail;
    if !Trackable(d) {
      RecordKeeps(l, s, if d.ownerPending then Unresolved else Passed, n, d);
    } else if d.ownerPending {
      FeedPendingKeeps(l, s, e, mallocOk, n);
    } else if IsEvidence(d) {
      FeedEvidenceKeeps(l, s, d, n);
      RecordKeeps(l, FeedEvidence(l, s, d), Passed, n, d);
    } else {
      RecordKeeps(l, s, Passed, n, d);
    }
  }

  // ----- Whole runs

  lemma {:induction false} StepKeepsInvariant(l: Limits, s: State, op: Op)
    requires l.Ok() && Invariant(l, s)
    ensures Invariant(l, Step(l, s, op))
  {
    match op
    case Feed(event, mallocOk) => FeedStepKeeps(l, s, event, mallocOk);
    case Tick(now) => ExpireKeepsInvariant(l, s, now, |s.history|);
    case Finish => FinishLoopKeeps(l, s, |s.history|);
  }

  /** The main result: the invariant holds after any operations whatever. */
  lemma {:induction false} EveryRunKeepsInvariant(l: Limits, ops: seq<Op>)
    requires l.Ok()
    ensures Invariant(l, Run(l, ops))
    decreases |ops|
  {
    if ops == [] {
      var s := Init(l);
      assert QueueArrivals(s.list) == [] && LogArrivals(s.log) == [] && FirstNumbers(0) == [];
    } else {
      EveryRunKeepsInvariant(l, ops[..|ops| - 1]);
      StepKeepsInvariant(l, Run(l, ops[..|ops| - 1]), ops[|ops| - 1]);
    }
  }

  /** The record with the owner that the evidence names, and nothing else changed. */
  ghost predicate OwnedBy(x: Detail, d: Detail, evidence: Detail) {
    x.ts == d.ts && x.direction == d.direction && x.key == d.key && x.generation == d.generation && x.rest == d.rest &&
    !x.ownerPending && x.ownerEvidence == 2 && x.ownerValid &&
    x.ownerSocketKey == evidence.ownerSocketKey && x.ownerSocketGeneration == evidence.ownerSocketGeneration &&
    x.ownerTid == evidence.ownerTid && x.ownerTgid == evidence.ownerTgid && x.ownerUid == evidence.ownerUid
  }

  /** Soundness: whatever is emitted was fed without a pending mark and is unchanged, or was
      quarantined and now carries the owner named by a fed event about the same buffer instance,
      dated from its own time to one window later. */
  lemma {:induction false} ReplaysAreJustified(l: Limits, ops: seq<Op>, s: State, i: nat)
    requires l.Ok() && s == Run(l, ops) && i < |s.log| && s.log[i].kind in {Passed, Replayed}
    ensures !s.log[i].detail.ownerPending
    ensures s.log[i].arrival < |s.history|
    ensures var d := s.history[s.log[i].arrival].detail;
            (s.log[i].kind == Passed && s.log[i].detail == d) ||
            (s.log[i].kind == Replayed && d.ownerPending && Trackable(d) &&
             exists h :: 0 <= h < |s.history| && IsEvidence(s.history[h].detail) &&
                         s.history[h].detail.key == d.key && s.history[h].detail.generation == d.generation &&
                         d.ts <= s.history[h].detail.ts <= d.ts + l.window &&
                         OwnedBy(s.log[i].detail, d, s.history[h].detail))
  {
    EveryRunKeepsInvariant(l, ops);
    assert OutcomeSound(l, s.history, s.watermark, s.log[i]);
    if s.log[i].kind == Replayed {
      var d := s.history[s.log[i].arrival].detail;
      var owner :| Justified(l, s.history, d, owner) && s.log[i].detail == Apply(d, owner);
      var h :| Names(s.history, h, owner);
    }
  }

  // ----- No evidence is overlooked, wherever it is now

  /** No queued event matches direct evidence that was fed after it. */
  ghost predicate NothingMissed(l: Limits, list: seq<Entry>, history: seq<Event>) {
    forall x, h :: x in list && x.arrival < h < |history| && IsEvidence(history[h].detail) ==>
      !Matches(l, x.detail, EvidenceOf(history[h].detail))
  }

  lemma {:induction false} ExpireLoopOnlyDrops(l: Limits, s: State)
    ensures forall x :: x in ExpireLoop(l, s).list ==> x in s.list
    decreases |s.list|
  {
    if s.list != [] && Stale(l, s.watermark, s.list[0].detail.ts) {
      ExpireLoopOnlyDrops(l, DropHead(s, Expired));
    }
  }

  lemma {:induction false} EvictLoopOnlyDrops(l: Limits, s: State, allocation: nat)
    requires l.Ok() && allocation + l.ownersBytes <= l.maxBytes
    ensures forall x :: x in EvictLoop(l, s, allocation).list ==> x in s.list
    decreases |s.list|
  {
    if Full(l, s, allocation) {
      EvictLoopOnlyDrops(l, DropHead(s, CapacityDropped), allocation);
    }
  }

  lemma {:induction false} FinishLoopEmpties(s: State)
    ensures FinishLoop(s).list == []
    decreases |s.list|
  {
    if s.list != [] { FinishLoopEmpties(DropHead(s, Unresolved)); }
  }

  /** The replay loop drops events only, and among them all that match. */
  lemma {:induction false} ReplayLoopClears(l: Limits, s: State, i: nat, evidence: Owner)
    requires i <= |s.list| && forall k :: 0 <= k < i ==> !Matches(l, s.list[k].detail, evidence)
    ensures forall x :: x in ReplayLoop(l, s, i, evidence).list ==> x in s.list && !Matches(l, x.detail, evidence)
    decreases |s.list| - i
  {
    if i < |s.list| {
      if Matches(l, s.list[i].detail, evidence) {
        ReplayLoopClears(l, Drop(s, i, Replayed, Apply(s.list[i].detail, evidence)), i, evidence);
      } else {
        ReplayLoopClears(l, s, i + 1, evidence);
      }
    }
  }

  lemma {:induction false} EvidenceClears(l: Limits, s: State, d: Detail)
    requires l.Ok() && |s.owners| == l.slots
    ensures forall x :: x in FeedEvidence(l, s, d).list ==> x in s.list && !Matches(l, x.detail, EvidenceOf(d))
  {
    var slot, evidence := Slot(l, d.key, d.generation), EvidenceOf(d);
    ReplayLoopClears(l, s, 0, evidence);
    ReplayLoopClears(l, s.(owners := s.owners[slot := evidence]), 0, evidence);
  }

  lemma {:induction false} PendingAddsOne(l: Limits, s: State, arrival: nat, e: Event, mallocOk: bool)
    requires l.Ok() && |s.owners| == l.slots && l.detailBytes <= e.size && e.detail.ts <= s.watermark
    ensures forall x :: x in FeedPending(l, s, arrival, e, mallocOk).list ==>
              x in s.list || x == Entry(arrival, e.cpu, e.size, e.detail)
  {
    if l.Allocation(e.size) + l.ownersBytes <= l.maxBytes {
      EvictLoopOnlyDrops(l, s, l.Allocation(e.size));
    }
  }

  /** What a dispatched record leaves in the list: what was there, less what it is evidence for, and
      perhaps itself. */
  lemma {:induction false} DispatchLeaves(l: Limits, s: State, arrival: nat, e: Event, mallocOk: bool)
    requires l.Ok() && |s.owners| == l.slots && l.detailBytes <= e.size && e.detail.ts <= s.watermark
    ensures forall x :: x in DispatchStep(l, s, arrival, e, mallocOk).list ==>
              (x in s.list && (IsEvidence(e.detail) ==> !Matches(l, x.detail, EvidenceOf(e.detail)))) ||
              x.arrival == arrival
  {
    if Trackable(e.detail) && e.detail.ownerPending {
      PendingAddsOne(l, s, arrival, e, mallocOk);
    } else if IsEvidence(e.detail) {
      EvidenceClears(l, s, e.detail);
    }
  }

  lemma {:induction false} FeedMissesNothing(l: Limits, s: State, e: Event, mallocOk: bool)
    requires l.Ok() && |s.owners| == l.slots && NothingMissed(l, s.list, s.history)
    ensures var t := FeedStep(l, s, e, mallocOk); NothingMissed(l, t.list, t.history)
  {
    if e.size >= l.detailBytes {
      var s0 := s.(history := s.history + [e]);
      var s1 := Expire(l, s0, e.detail.ts);
      ExpireLoopOnlyDrops(l, if e.detail.ts > s0.watermark then s0.(watermark := e.detail.ts) else s0);
      DispatchLeaves(l, s1, |s.history|, e, mallocOk);
      DispatchHistory(l, s1, |s.history|, e, mallocOk);
    }
  }

  lemma {:induction false} DispatchHistory(l: Limits, s: State, arrival: nat, e: Event, mallocOk: bool)
    requires l.Ok() && |s.owners| == l.slots && l.detailBytes <= e.size && e.detail.ts <= s.watermark
    ensures DispatchStep(l, s, arrival, e, mallocOk).history == s.history
  {
  }

  /** In every reachable state no queued event matches direct evidence fed after it, even if a
      collision has since taken that evidence from its slot. */
  lemma {:induction false} EveryRunMissesNothing(l: Limits, ops: seq<Op>)
    requires l.Ok()
    ensures NothingMissed(l, Run(l, ops).list, Run(l, ops).history)
    decreases |ops|
  {
    if ops != [] {
      var s := Run(l, ops[..|ops| - 1]);
      EveryRunMissesNothing(l, ops[..|ops| - 1]);
      match ops[|ops| - 1]
      case Feed(event, mallocOk) => FeedMissesNothing(l, s, event, mallocOk);
      case Tick(now) => ExpireLoopOnlyDrops(l, if now > s.watermark then s.(watermark := now) else s);
      case Finish => FinishLoopEmpties(s);
    }
  }

  /** Completeness and conservation: nothing quarantined matches the evidence held for it nor any
      direct evidence fed after it, every fed record has exactly one fate, and the counters balance. */
  lemma {:induction false} NothingIsLostOrOverlooked(l: Limits, ops: seq<Op>, s: State)
    requires l.Ok() && s == Run(l, ops)
    ensures |s.owners| == l.slots
    ensures forall i :: 0 <= i < |s.list| ==>
              !Matches(l, s.list[i].detail, s.owners[Slot(l, s.list[i].detail.key, s.list[i].detail.generation)])
    ensures forall i, h :: 0 <= i < |s.list| && s.list[i].arrival < h < |s.history| &&
                           IsEvidence(s.history[h].detail) ==>
              !(s.history[h].detail.key == s.list[i].detail.key &&
                s.history[h].detail.generation == s.list[i].detail.generation &&
                s.list[i].detail.ts <= s.history[h].detail.ts <= s.list[i].detail.ts + l.window)
    ensures multiset(QueueArrivals(s.list)) + multiset(LogArrivals(s.log)) == multiset(FirstNumbers(|s.history|))
    ensures CountPending(s.history) == s.replayed + s.expired + s.capacityDropped + s.unresolved + |s.list|
    ensures |ops| > 0 && ops[|ops| - 1].Finish? ==> s.list == []
  {
    EveryRunKeepsInvariant(l, ops);
    EveryRunMissesNothing(l, ops);
    assert s.history[..|s.history|] == s.history;
    forall i | 0 <= i < |s.list|
      ensures !Matches(l, s.list[i].detail, s.owners[Slot(l, s.list[i].detail.key, s.list[i].detail.generation)])
    {
      assert OwnSlot(l, s.owners, s.list[i].detail) ==
             s.owners[Slot(l, s.list[i].detail.key, s.list[i].detail.generation)];
    }
    if |ops| > 0 && ops[|ops| - 1].Finish? {
      var before := Run(l, ops[..|ops| - 1]);
      EveryRunKeepsInvariant(l, ops[..|ops| - 1]);
      FinishLoopKeeps(l, before, |before.history|);
    }
  }
}
