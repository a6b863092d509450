/** Wakeup evidence: a bounded table with one entry per thread id, written by the scheduler
    tracepoints and read when a syscall starts. The kernel may evict any entry at any time and may
    give the same thread id to a new task. */
module Wakeup {
  import opened Wrappers

  /** The kernel's monotonic clock, which has left zero when the first program runs. */
  type Time = t: nat | 0 < t witness 1

  /** A task is known by its thread id, its process and its start time. */
  datatype Task = Task(tid: nat, tgid: nat, birth: nat)

  /** What becomes of a fresh entry put into the table: it is there, the table refused it, or it was
      evicted before it could be looked up again. */
  datatype Storage = Stored | Refused | Lost

  datatype Waker = Waker(cpu: nat, context: nat, count: nat, task: Task, comm: string)

  /** The moments are zero while they have not been observed. */
  datatype Entry = Entry(tgid: nat, birth: nat, waking: nat, wakeup: nat, run: nat, runCpu: nat, waker: Waker)

  /** The tracepoints and the eviction of an entry. The tasks woken and switched to are named in full,
      though the programs see only their thread ids. */
  datatype Event =
    | Waking(woken: Task, ts: Time, cpu: nat, context: nat, count: nat, waker: Task, comm: string)
    | Wakeup(woken: Task, ts: Time)
    | Switch(prev: Task, next: Task, current: Task, matches: bool, storage: Storage, ts: Time, cpu: nat)
    | Snapshot(current: Task, matches: bool, storage: Storage, start: nat)
    | Evict(tid: nat)

  datatype Report = Report(status: nat, run: nat, runCpu: nat, waking: nat, wakeup: nat, waker: Waker)

  type Table = map<nat, Entry>

  const NOBODY := Waker(0, 0, 0, Task(0, 0, 0), "")

  function Blank(t: Task): Entry {
    Entry(t.tgid, t.birth, 0, 0, 0, 0, NOBODY)
  }

  predicate BelongsTo(e: Entry, t: Task) {
    e.birth == t.birth && e.tgid == t.tgid
  }

  // ----- The steps

  /** The programs look only at a known task that passes the filter. */
  predicate Admits(t: Task, matches: bool) {
    matches && t.tid != 0 && t.birth != 0
  }

  /** network_wakeup_current: whether it finds or makes an entry for the current task. */
  predicate Present(s: Table, t: Task, matches: bool, storage: Storage) {
    Admits(t, matches) && ((t.tid in s && BelongsTo(s[t.tid], t)) || storage.Stored?)
  }

  /** The table after it. */
  function Current(s: Table, t: Task, matches: bool, storage: Storage): (r: Table)
    ensures Present(s, t, matches, storage) ==> t.tid in r && BelongsTo(r[t.tid], t)
  {
    if !Admits(t, matches) || (t.tid in s && BelongsTo(s[t.tid], t)) then s
    else match storage
      case Stored => s[t.tid := Blank(t)]
      case Refused => s
      case Lost => s - {t.tid}
  }

  function Clear(e: Entry): Entry {
    e.(waking := 0, wakeup := 0, run := 0, runCpu := 0, waker := NOBODY)
  }

  /** Only a waker in task context is named: an interrupt must not be blamed on the task it
      interrupted. */
  function WakerOf(cpu: nat, context: nat, count: nat, waker: Task, comm: string): Waker {
    if context != 1 then NOBODY.(cpu := cpu, context := context, count := count)
    else if waker.tid != 0 && waker.birth != 0 then Waker(cpu, 1, count, waker, comm)
    else NOBODY.(cpu := cpu)
  }

  function SwitchOut(s: Table, e: Event): Table
    requires e.Switch?
  {
    if e.prev.tid != e.current.tid then s
    else
      var now := Current(s, e.current, e.matches, e.storage);
      if Present(s, e.current, e.matches, e.storage)
      then now[e.current.tid := Clear(now[e.current.tid])] else now
  }

  function SwitchIn(s: Table, tid: nat, ts: Time, cpu: nat): Table {
    if tid in s then s[tid := s[tid].(run := ts, runCpu := cpu)] else s
  }

  function Step(s: Table, e: Event): Table {
    match e
    case Waking(woken, ts, cpu, context, count, waker, comm) =>
      if woken.tid in s
      then s[woken.tid := Clear(s[woken.tid]).(waking := ts, waker := WakerOf(cpu, context, count, waker, comm))]
      else s
    case Wakeup(woken, ts) =>
      if woken.tid in s && s[woken.tid].waking != 0 && s[woken.tid].run == 0
      then s[woken.tid := s[woken.tid].(wakeup := ts)] else s
    case Switch(_, next, _, _, _, ts, cpu) => SwitchIn(SwitchOut(s, e), next.tid, ts, cpu)
    case Snapshot(current, matches, storage, _) => Current(s, current, matches, storage)
    case Evict(tid) => s - {tid}
  }

  function Run(trace: seq<Event>): Table {
    if trace == [] then map[] else Step(Run(trace[..|trace| - 1]), trace[|trace| - 1])
  }

  /** What network_wakeup_snapshot tells about an entry to a call that started at `start`. */
  function Observe(e: Entry, start: nat): Report {
    if e.run == 0 || e.run > start then Report(1, 0, 0, 0, 0, NOBODY)
    else if e.waking == 0 || e.wakeup < e.waking || e.run < e.wakeup
    then Report(3, e.run, e.runCpu, 0, 0, NOBODY)
    else Report(2, e.run, e.runCpu, e.waking, e.wakeup, e.waker)
  }

  function ReportOf(s: Table, e: Event): Report
    requires e.Snapshot?
  {
    if Present(s, e.current, e.matches, e.storage)
    then Observe(Current(s, e.current, e.matches, e.storage)[e.current.tid], e.start)
    else Report(1, 0, 0, 0, 0, NOBODY)
  }

  // ----- What an event means for one task

  /** The task itself was looked up and got an entry. */
  predicate Opens(e: Event, t: Task) {
    (e.Snapshot? || (e.Switch? && e.prev.tid == e.current.tid)) &&
    e.current == t && Admits(t, e.matches) && e.storage.Stored?
  }

  /** The entry of the task leaves the table: evicted, or replaced by that of another task with the
      same thread id. */
  predicate Drops(e: Event, t: Task) {
    (e.Evict? && e.tid == t.tid) ||
    ((e.Snapshot? || (e.Switch? && e.prev.tid == e.current.tid)) &&
     e.current.tid == t.tid && !(e.current.tgid == t.tgid && e.current.birth == t.birth) &&
     Admits(e.current, e.matches) && !e.storage.Refused?)
  }

  predicate Wakes(e: Event, t: Task) { e.Waking? && e.woken.tid == t.tid }

  predicate MakesReady(e: Event, t: Task) { e.Wakeup? && e.woken.tid == t.tid }

  predicate Enters(e: Event, t: Task) { e.Switch? && e.next.tid == t.tid }

  /** The task itself was seen leaving its processor. */
  predicate Leaves(e: Event, t: Task) {
    e.Switch? && e.prev.tid == e.current.tid && e.current == t && Admits(t, e.matches)
  }

  predicate Resets(e: Event, t: Task) { Wakes(e, t) || Leaves(e, t) }

  // ----- Every entry can be explained by the trace

  /** The events an entry was made from: the one that opened it, and the last of each kind. */
  datatype Origin = Origin(made: nat, waking: Option<nat>, wakeup: Option<nat>, run: Option<nat>)

  /** No event from `a` on, before `b`, satisfies the predicate. */
  ghost predicate Quiet(trace: seq<Event>, a: nat, b: nat, t: Task, p: (Event, Task) -> bool) {
    b <= |trace| && forall m :: a <= m < b ==> !p(trace[m], t)
  }

  ghost predicate Tracked(trace: seq<Event>, c: nat, n: nat, t: Task) {
    c < n <= |trace| && Opens(trace[c], t) && Quiet(trace, c + 1, n, t, Drops)
  }

  ghost predicate WokenAt(trace: seq<Event>, e: Entry, t: Task, c: nat, i: nat) {
    c < i < |trace| && Wakes(trace[i], t) && e.waking == trace[i].ts &&
    e.waker == WakerOf(trace[i].cpu, trace[i].context, trace[i].count, trace[i].waker, trace[i].comm) &&
    Quiet(trace, i + 1, |trace|, t, Resets)
  }

  ghost predicate ReadyAt(trace: seq<Event>, e: Entry, t: Task, i: nat, j: nat) {
    i < j < |trace| && MakesReady(trace[j], t) && e.wakeup == trace[j].ts && Quiet(trace, i + 1, j, t, Enters) &&
    LastReady(trace, j, |trace|, t)
  }

  /** No later wakeup comes before the task is switched in. */
  ghost predicate LastReady(trace: seq<Event>, j: nat, n: nat, t: Task) {
    n <= |trace| && forall m :: j < m < n && MakesReady(trace[m], t) ==> !Quiet(trace, j + 1, m, t, Enters)
  }

  ghost predicate RunsSince(trace: seq<Event>, e: Entry, t: Task, c: nat, k: nat) {
    c <= k < |trace| && Enters(trace[k], t) && e.run == trace[k].ts && e.runCpu == trace[k].cpu &&
    Quiet(trace, k + 1, |trace|, t, Enters) && Quiet(trace, k + 1, |trace|, t, Resets)
  }

  ghost predicate Explains(trace: seq<Event>, e: Entry, t: Task, o: Origin) {
    BelongsTo(e, t) && Tracked(trace, o.made, |trace|, t) &&
    (match o.waking
     case Some(i) => WokenAt(trace, e, t, o.made, i)
     case None => e.waking == 0) &&
    (match o.wakeup
     case Some(j) => o.waking.Some? && ReadyAt(trace, e, t, o.waking.value, j)
     case None => e.wakeup == 0) &&
    (match o.run
     case Some(k) => RunsSince(trace, e, t, o.made, k) && (o.waking.Some? ==> o.waking.value < k) &&
                     (o.wakeup.Some? ==> o.wakeup.value < k)
     case None => e.run == 0 && (o.waking.Some? ==> Quiet(trace, o.waking.value + 1, |trace|, t, Enters)))
  }

  // ----- One event, one entry

  /** What an event does to the entry of a task that it does not drop. */
  function EntryStep(was: Entry, e: Event, t: Task): Entry {
    if Wakes(e, t)
    then Clear(was).(waking := e.ts, waker := WakerOf(e.cpu, e.context, e.count, e.waker, e.comm))
    else if MakesReady(e, t) && was.waking != 0 && was.run == 0 then was.(wakeup := e.ts)
    else
      var now := if Leaves(e, t) then Clear(was) else was;
      if Enters(e, t) then now.(run := e.ts, runCpu := e.cpu) else now
  }

  lemma {:induction false} StepOnEntry(s: Table, e: Event, t: Task)
    requires t.tid in s && BelongsTo(s[t.tid], t) && !Drops(e, t)
    ensures t.tid in Step(s, e) && Step(s, e)[t.tid] == EntryStep(s[t.tid], e, t)
    ensures BelongsTo(Step(s, e)[t.tid], t)
  {
  }

  /** An entry that the event did not merely change was opened by it. */
  lemma {:induction false} NewEntry(s: Table, e: Event, t: Task)
    requires t.tid in Step(s, e) && BelongsTo(Step(s, e)[t.tid], t)
    requires Drops(e, t) || t.tid !in s || !BelongsTo(s[t.tid], t)
    ensures Opens(e, t) && !Drops(e, t)
    ensures Step(s, e)[t.tid] == EntryStep(Blank(t), e, t)
  {
  }

  lemma {:induction false} OpensEntry(s: Table, e: Event, t: Task)
    requires Opens(e, t)
    ensures t.tid in Step(s, e) && BelongsTo(Step(s, e)[t.tid], t)
  {
  }

  // ----- Explanations carry over from event to event

  lemma {:induction false} QuietKept(trace: seq<Event>, e: Event, a: nat, b: nat, t: Task, p: (Event, Task) -> bool)
    requires b <= |trace|
    ensures Quiet(trace + [e], a, b, t, p) == Quiet(trace, a, b, t, p)
  {
    assert forall m :: 0 <= m < b ==> (trace + [e])[m] == trace[m];
  }

  lemma {:induction false} QuietLonger(trace: seq<Event>, e: Event, a: nat, t: Task, p: (Event, Task) -> bool)
    requires Quiet(trace, a, |trace|, t, p) && !p(e, t)
    ensures Quiet(trace + [e], a, |trace| + 1, t, p)
  {
  }

  lemma {:induction false} TrackedLonger(trace: seq<Event>, e: Event, c: nat, t: Task)
    requires Tracked(trace, c, |trace|, t) && !Drops(e, t)
    ensures Tracked(trace + [e], c, |trace| + 1, t)
  {
    QuietLonger(trace, e, c + 1, t, Drops);
  }

  lemma {:induction false} WokenLonger(trace: seq<Event>, e: Event, was: Entry, t: Task, c: nat, i: nat)
    requires WokenAt(trace, was, t, c, i) && !Resets(e, t)
    ensures WokenAt(trace + [e], EntryStep(was, e, t), t, c, i)
  {
    QuietLonger(trace, e, i + 1, t, Resets);
  }

  lemma {:induction false} RunLonger(trace: seq<Event>, e: Event, was: Entry, t: Task, c: nat, k: nat)
    requires RunsSince(trace, was, t, c, k) && !Resets(e, t) && !Enters(e, t)
    ensures RunsSince(trace + [e], EntryStep(was, e, t), t, c, k)
  {
    QuietLonger(trace, e, k + 1, t, Resets);
    QuietLonger(trace, e, k + 1, t, Enters);
  }

  /** The last wakeup stays the last if the event is none, or comes after a switch-in. */
  lemma {:induction false} LastReadyLonger(trace: seq<Event>, e: Event, j: nat, t: Task)
    requires LastReady(trace, j, |trace|, t) && (!MakesReady(e, t) || !Quiet(trace, j + 1, |trace|, t, Enters))
    ensures LastReady(trace + [e], j, |trace| + 1, t)
  {
    forall m | j < m < |trace| + 1 && MakesReady((trace + [e])[m], t)
      ensures !Quiet(trace + [e], j + 1, m, t, Enters)
    {
      QuietKept(trace, e, j + 1, m, t, Enters);
    }
  }

  lemma {:induction false} ReadyLonger(trace: seq<Event>, e: Event, was: Entry, now: Entry, t: Task, i: nat, j: nat)
    requires ReadyAt(trace, was, t, i, j) && now.wakeup == was.wakeup
    requires !MakesReady(e, t) || !Quiet(trace, j + 1, |trace|, t, Enters)
    ensures ReadyAt(trace + [e], now, t, i, j)
  {
    QuietKept(trace, e, i + 1, j, t, Enters);
    LastReadyLonger(trace, e, j, t);
  }

  /** The explanation of an entry after an event that keeps it. */
  ghost function NextOrigin(o: Origin, was: Entry, e: Event, t: Task, n: nat): Origin {
    if Wakes(e, t) then Origin(o.made, Some(n), None, None)
    else if MakesReady(e, t) && was.waking != 0 && was.run == 0 then o.(wakeup := Some(n))
    else
      var now := if Leaves(e, t) then Origin(o.made, None, None, None) else o;
      if Enters(e, t) then now.(run := Some(n)) else now
  }

  lemma {:induction false} ResetExplained(trace: seq<Event>, e: Event, was: Entry, t: Task, o: Origin)
    requires Explains(trace, was, t, o) && !Drops(e, t) && Resets(e, t)
    ensures Explains(trace + [e], EntryStep(was, e, t), t, NextOrigin(o, was, e, t, |trace|))
  {
    TrackedLonger(trace, e, o.made, t);
  }

  lemma {:induction false} ReadyExplained(trace: seq<Event>, e: Event, was: Entry, t: Task, o: Origin)
    requires Explains(trace, was, t, o) && !Drops(e, t) && MakesReady(e, t)
    ensures Explains(trace + [e], EntryStep(was, e, t), t, NextOrigin(o, was, e, t, |trace|))
  {
    TrackedLonger(trace, e, o.made, t);
    if o.waking.Some? {
      var i := o.waking.value;
      WokenLonger(trace, e, was, t, o.made, i);
      if o.run.None? {
        QuietLonger(trace, e, i + 1, t, Enters);
        QuietKept(trace, e, i + 1, |trace|, t, Enters);
      } else if o.wakeup.Some? {
        assert Enters(trace[o.run.value], t);
        ReadyLonger(trace, e, was, EntryStep(was, e, t), t, i, o.wakeup.value);
      }
    }
    if o.run.Some? { RunLonger(trace, e, was, t, o.made, o.run.value); }
  }

  lemma {:induction false} OtherExplained(trace: seq<Event>, e: Event, was: Entry, t: Task, o: Origin)
    requires Explains(trace, was, t, o) && !Drops(e, t) && !Resets(e, t) && !MakesReady(e, t)
    ensures Explains(trace + [e], EntryStep(was, e, t), t, NextOrigin(o, was, e, t, |trace|))
  {
    TrackedLonger(trace, e, o.made, t);
    if o.waking.Some? {
      var i := o.waking.value;
      WokenLonger(trace, e, was, t, o.made, i);
      if o.wakeup.Some? { ReadyLonger(trace, e, was, EntryStep(was, e, t), t, i, o.wakeup.value); }
      if o.run.None? && !Enters(e, t) { QuietLonger(trace, e, i + 1, t, Enters); }
    }
    if o.run.Some? && !Enters(e, t) { RunLonger(trace, e, was, t, o.made, o.run.value); }
  }

  /** In every reachable table every entry is explained by the events of the trace. */
  lemma {:induction false} EveryEntryIsExplained(trace: seq<Event>, t: Task) returns (o: Origin)
    requires t.tid in Run(trace) && BelongsTo(Run(trace)[t.tid], t)
    ensures Explains(trace, Run(trace)[t.tid], t, o)
  {
    var front, e := trace[..|trace| - 1], trace[|trace| - 1];
    var s := Run(front);
    assert trace == front + [e];
    if Drops(e, t) || t.tid !in s || !BelongsTo(s[t.tid], t) {
      NewEntry(s, e, t);
      o := Origin(|front|, None, None, if Enters(e, t) then Some(|front|) else None);
    } else {
      StepOnEntry(s, e, t);
      var before := EveryEntryIsExplained(front, t);
      o := NextOrigin(before, s[t.tid], e, t, |front|);
      if Resets(e, t) {
        ResetExplained(front, e, s[t.tid], t, before);
      } else if MakesReady(e, t) {
        ReadyExplained(front, e, s[t.tid], t, before);
      } else {
        OtherExplained(front, e, s[t.tid], t, before);
      }
    }
  }

  // ----- Observed wakeups are exactly the real ones

  /** Since its entry was made at `c` the task was woken at `i`, made ready at `j` and switched in at
      `k`: the last waking with no switch-out since, the last wakeup before it was first switched in,
      and the last switch-in. */
  ghost predicate Chain(trace: seq<Event>, t: Task, c: nat, i: nat, j: nat, k: nat) {
    c < i < j < k < |trace| && Tracked(trace, c, |trace|, t) &&
    Wakes(trace[i], t) && Quiet(trace, i + 1, |trace|, t, Resets) &&
    MakesReady(trace[j], t) && Quiet(trace, i + 1, j, t, Enters) && LastReady(trace, j, |trace|, t) &&
    Enters(trace[k], t) && Quiet(trace, k + 1, |trace|, t, Enters)
  }

  /** The report a chain calls for. */
  ghost predicate Reports(trace: seq<Event>, r: Report, i: nat, j: nat, k: nat) {
    i < |trace| && j < |trace| && k < |trace| && trace[i].Waking? && trace[j].Wakeup? && trace[k].Switch? &&
    r == Report(2, trace[k].ts, trace[k].cpu, trace[i].ts, trace[j].ts,
                WakerOf(trace[i].cpu, trace[i].context, trace[i].count, trace[i].waker, trace[i].comm))
  }

  ghost predicate InTime(trace: seq<Event>, i: nat, j: nat, k: nat, start: nat) {
    i < |trace| && j < |trace| && k < |trace| && trace[i].Waking? && trace[j].Wakeup? && trace[k].Switch? &&
    trace[i].ts <= trace[j].ts <= trace[k].ts <= start
  }

  /** Status 2 comes from a chain. */
  lemma {:induction false} ReportHasChain(trace: seq<Event>, e: Event) returns (c: nat, i: nat, j: nat, k: nat)
    requires e.Snapshot? && ReportOf(Run(trace), e).status == 2
    ensures Admits(e.current, e.matches) && Chain(trace, e.current, c, i, j, k) && InTime(trace, i, j, k, e.start)
    ensures Reports(trace, ReportOf(Run(trace), e), i, j, k)
  {
    var o := EveryEntryIsExplained(trace, e.current);
    c, i, j, k := o.made, o.waking.value, o.wakeup.value, o.run.value;
  }

  /** What the table holds about the task after the first `m` events of a chain's trace. */
  ghost predicate Progress(trace: seq<Event>, s: Table, t: Task, i: nat, j: nat, k: nat, m: nat)
    requires i < j < k < |trace| && trace[i].Waking? && trace[j].Wakeup? && trace[k].Switch?
  {
    t.tid in s && BelongsTo(s[t.tid], t) &&
    (i < m ==> s[t.tid].waking == trace[i].ts) &&
    (i < m ==>
       s[t.tid].waker ==
       WakerOf(trace[i].cpu, trace[i].context, trace[i].count, trace[i].waker, trace[i].comm)) &&
    (i < m <= j ==> s[t.tid].run == 0) &&
    (j < m ==> s[t.tid].wakeup == trace[j].ts) &&
    (j < m && !Quiet(trace, j + 1, m, t, Enters) ==> s[t.tid].run != 0) &&
    (k < m ==> s[t.tid].run == trace[k].ts && s[t.tid].runCpu == trace[k].cpu)
  }

  lemma {:induction false} ProgressStep(trace: seq<Event>, s: Table, t: Task, c: nat, i: nat, j: nat, k: nat, m: nat)
    requires Chain(trace, t, c, i, j, k) && c < m < |trace| && Progress(trace, s, t, i, j, k, m)
    ensures Progress(trace, Step(s, trace[m]), t, i, j, k, m + 1)
  {
    assert !Drops(trace[m], t);
    StepOnEntry(s, trace[m], t);
    assert i < m ==> !Resets(trace[m], t);
    assert k < m ==> !Enters(trace[m], t);
    assert i < m < j ==> !Enters(trace[m], t);
  }

  lemma {:induction false} ChainProgress(trace: seq<Event>, t: Task, c: nat, i: nat, j: nat, k: nat, m: nat)
    requires Chain(trace, t, c, i, j, k) && c < m <= |trace|
    ensures Progress(trace, Run(trace[..m]), t, i, j, k, m)
  {
    assert trace[..m][..m - 1] == trace[..m - 1];
    if m == c + 1 {
      OpensEntry(Run(trace[..c]), trace[c], t);
    } else {
      ChainProgress(trace, t, c, i, j, k, m - 1);
      ProgressStep(trace, Run(trace[..m - 1]), t, c, i, j, k, m - 1);
    }
  }

  /** A snapshot reports an observed wakeup if and only if the trace holds a chain for the very task
      that is asking, with moments in order and before the call. */
  lemma {:induction false} ObservedExactlyWhenChained(trace: seq<Event>, e: Event)
    requires e.Snapshot?
    ensures ReportOf(Run(trace), e).status == 2 <==>
            Admits(e.current, e.matches) &&
            exists c, i, j, k :: Chain(trace, e.current, c, i, j, k) && InTime(trace, i, j, k, e.start)
  {
    if ReportOf(Run(trace), e).status == 2 {
      var c, i, j, k := ReportHasChain(trace, e);
    }
    forall c, i, j, k | Admits(e.current, e.matches) && Chain(trace, e.current, c, i, j, k) &&
                        InTime(trace, i, j, k, e.start)
      ensures ReportOf(Run(trace), e).status == 2
    {
      ChainProgress(trace, e.current, c, i, j, k, |trace|);
      assert trace[..|trace|] == trace;
    }
  }

  // ----- Running tasks, wakers and known tasks

  /** Since its entry was made at `c` the task was switched in at `k`, and not again, nor reset, since. */
  ghost predicate RunningSince(trace: seq<Event>, t: Task, c: nat, k: nat) {
    c <= k < |trace| && Tracked(trace, c, |trace|, t) && Enters(trace[k], t) &&
    Quiet(trace, k + 1, |trace|, t, Enters) && Quiet(trace, k + 1, |trace|, t, Resets)
  }

  lemma {:induction false} EntryStays(trace: seq<Event>, t: Task, c: nat, m: nat)
    requires Tracked(trace, c, |trace|, t) && c < m <= |trace|
    ensures t.tid in Run(trace[..m]) && BelongsTo(Run(trace[..m])[t.tid], t)
  {
    assert trace[..m][..m - 1] == trace[..m - 1];
    if m == c + 1 {
      OpensEntry(Run(trace[..c]), trace[c], t);
    } else {
      EntryStays(trace, t, c, m - 1);
      StepOnEntry(Run(trace[..m - 1]), trace[m - 1], t);
    }
  }

  lemma {:induction false} SwitchInDates(s: Table, e: Event, t: Task)
    requires Enters(e, t) && t.tid in Step(s, e)
    ensures Step(s, e)[t.tid].run == e.ts && Step(s, e)[t.tid].runCpu == e.cpu
  {
  }

  lemma {:induction false} RunStays(trace: seq<Event>, t: Task, c: nat, k: nat, m: nat)
    requires RunningSince(trace, t, c, k) && k < m <= |trace|
    ensures t.tid in Run(trace[..m]) && BelongsTo(Run(trace[..m])[t.tid], t)
    ensures Run(trace[..m])[t.tid].run == trace[k].ts && Run(trace[..m])[t.tid].runCpu == trace[k].cpu
  {
    assert trace[..m][..m - 1] == trace[..m - 1];
    EntryStays(trace, t, c, m);
    if m == k + 1 {
      SwitchInDates(Run(trace[..k]), trace[k], t);
    } else {
      RunStays(trace, t, c, k, m - 1);
      StepOnEntry(Run(trace[..m - 1]), trace[m - 1], t);
      assert !Enters(trace[m - 1], t) && !Resets(trace[m - 1], t);
    }
  }

  /** A snapshot tells since when its task runs (status 2 or 3) if and only if the task is a known one
      inside the filter that was switched in before the call and not reset since, and then it tells that
      moment and processor. */
  lemma {:induction false} RunningExactly(trace: seq<Event>, e: Event)
    requires e.Snapshot?
    ensures var r, t := ReportOf(Run(trace), e), e.current;
            r.status in {1, 2, 3} &&
            (r.status != 1 <==>
               e.matches && t.tid != 0 && t.birth != 0 &&
               exists c: nat, k: nat :: RunningSince(trace, t, c, k) && trace[k].ts <= e.start) &&
            forall c: nat, k: nat :: r.status != 1 && RunningSince(trace, t, c, k) ==>
              r.run == trace[k].ts && r.runCpu == trace[k].cpu
  {
    var r, t := ReportOf(Run(trace), e), e.current;
    assert trace[..|trace|] == trace;
    if r.status != 1 {
      var o := EveryEntryIsExplained(trace, t);
      assert RunningSince(trace, t, o.made, o.run.value);
    }
    forall c: nat, k: nat | RunningSince(trace, t, c, k)
      ensures t.tid in Run(trace) && BelongsTo(Run(trace)[t.tid], t) && Run(trace)[t.tid].run == trace[k].ts &&
              Run(trace)[t.tid].runCpu == trace[k].cpu
    {
      RunStays(trace, t, c, k, |trace|);
    }
  }

  /** A waker is named only if the waking ran in task context and the task is known: an interrupt is never
      blamed on the task it interrupted. */
  lemma {:induction false} WakerExactly(cpu: nat, context: nat, count: nat, waker: Task, comm: string)
    ensures var w, known := WakerOf(cpu, context, count, waker, comm), waker.tid != 0 && waker.birth != 0;
            w.cpu == cpu &&
            (w.context == if context == 1 && !known then 0 else context) &&
            (w.count == if context == 1 && !known then 0 else count) &&
            (if context == 1 && known then w.task == waker && w.comm == comm
             else w.task == Task(0, 0, 0) && w.comm == "")
  {
  }

  /** Every entry of a reachable table was made for a known task, when that task was looked up inside the
      filter. */
  lemma {:induction false} EntriesAreOfKnownTasks(trace: seq<Event>, tid: nat) returns (c: nat)
    requires tid in Run(trace)
    ensures tid != 0 && Run(trace)[tid].birth != 0 && c < |trace|
    ensures (trace[c].Snapshot? || (trace[c].Switch? && trace[c].prev.tid == tid)) && trace[c].matches &&
            trace[c].current == Task(tid, Run(trace)[tid].tgid, Run(trace)[tid].birth)
  {
    var o := EveryEntryIsExplained(trace, Task(tid, Run(trace)[tid].tgid, Run(trace)[tid].birth));
    c := o.made;
  }

  // ----- Thread ids are reused, but not while their task lives

  predicate Names(e: Event, t: Task) {
    match e
    case Waking(woken, _, _, _, _, _, _) => woken == t
    case Wakeup(woken, _) => woken == t
    case Switch(prev, next, current, _, _, _, _) => prev == t || next == t || current == t
    case Snapshot(current, _, _, _) => current == t
    case Evict(_) => false
  }

  /** Between two events of one task no other task has its thread id. */
  ghost predicate Lifetimes(trace: seq<Event>) {
    forall a, b, c, t, u {:trigger Names(trace[a], t), Names(trace[b], u), Names(trace[c], t)} ::
      0 <= a < b < c < |trace| && Names(trace[a], t) && Names(trace[b], u) && Names(trace[c], t) && u.tid == t.tid ==>
      u == t
  }

  /** sched_switch runs while the task that leaves is still the current one. */
  ghost predicate CurrentIsPrev(trace: seq<Event>) {
    forall m :: 0 <= m < |trace| && trace[m].Switch? ==> trace[m].current == trace[m].prev
  }

  predicate SwitchesOut(e: Event, tid: nat) {
    e.Switch? && e.prev.tid == tid
  }

  /** The task passed the filter whenever it left its processor from `a` on. */
  ghost predicate InsideSince(trace: seq<Event>, a: nat, t: Task) {
    forall m :: a <= m < |trace| && trace[m].Switch? && trace[m].prev == t ==> trace[m].matches
  }

  ghost predicate NoneOutSince(trace: seq<Event>, a: nat, tid: nat) {
    forall m :: a <= m < |trace| ==> !SwitchesOut(trace[m], tid)
  }

  /** The events of a report are those of the very task that asks, since their waking nothing woke its
      thread id again, and nothing switched it out exactly when the task passed the filter at every
      switch-out since. */
  ghost predicate Genuine(trace: seq<Event>, t: Task, i: nat, j: nat, k: nat) {
    i < j < k < |trace| && trace[i].Waking? && trace[j].Wakeup? && trace[k].Switch? &&
    trace[i].woken == t && trace[j].woken == t && trace[k].next == t &&
    (forall m :: i < m < |trace| ==> !Wakes(trace[m], t)) &&
    (NoneOutSince(trace, i + 1, t.tid) <==> InsideSince(trace, i + 1, t))
  }

  lemma {:induction false} ChainIsOfThisTask(trace: seq<Event>, e: Event, c: nat, i: nat, j: nat, k: nat)
    requires e.Snapshot? && Chain(trace, e.current, c, i, j, k) && Lifetimes(trace + [e])
    ensures trace[i].woken == e.current && trace[j].woken == e.current && trace[k].next == e.current
    ensures forall m :: c < m < |trace| && SwitchesOut(trace[m], e.current.tid) ==> trace[m].prev == e.current
  {
    var t, full := e.current, trace + [e];
    assert Names(full[c], t) && Names(full[|trace|], t);
    assert Names(full[i], trace[i].woken) && Names(full[j], trace[j].woken) && Names(full[k], trace[k].next);
    forall m | c < m < |trace| && SwitchesOut(trace[m], t.tid) ensures trace[m].prev == t {
      assert Names(full[m], trace[m].prev);
    }
  }

  /** Every chain is genuine. */
  lemma {:induction false} ChainIsGenuine(trace: seq<Event>, e: Event, c: nat, i: nat, j: nat, k: nat)
    requires e.Snapshot? && Chain(trace, e.current, c, i, j, k) && Lifetimes(trace + [e]) && CurrentIsPrev(trace)
    ensures Genuine(trace, e.current, i, j, k)
  {
    var t := e.current;
    ChainIsOfThisTask(trace, e, c, i, j, k);
    forall m | i < m < |trace|
      ensures !Wakes(trace[m], t) && (SwitchesOut(trace[m], t.tid) ==> trace[m].prev == t && !trace[m].matches)
      ensures trace[m].Switch? && trace[m].prev == t ==> SwitchesOut(trace[m], t.tid)
    {
      assert !Resets(trace[m], t);
    }
  }

  /** Every observed wakeup comes from a waking, a wakeup and a switch-in of this same task in this
      order, whatever was evicted and whoever had the thread id before; and it has no later switch-out
      exactly when the task passed the filter at every switch-out since that waking. */
  lemma {:induction false} ObservedWakeupsAreGenuine(trace: seq<Event>, e: Event)
    requires e.Snapshot? && ReportOf(Run(trace), e).status == 2
    requires Lifetimes(trace + [e]) && CurrentIsPrev(trace)
    ensures exists i: nat, j: nat, k: nat ::
              Reports(trace, ReportOf(Run(trace), e), i, j, k) && Genuine(trace, e.current, i, j, k)
  {
    var c, i, j, k := ReportHasChain(trace, e);
    ChainIsGenuine(trace, e, c, i, j, k);
  }

  /** So for a task that stays inside the filter every observed wakeup is real: no waking and no
      switch-out of its thread id came after it. */
  lemma {:induction false} ObservedWakeupsAreReal(trace: seq<Event>, e: Event)
    requires e.Snapshot? && ReportOf(Run(trace), e).status == 2
    requires Lifetimes(trace + [e]) && CurrentIsPrev(trace) && InsideSince(trace, 0, e.current)
    ensures exists i: nat, j: nat, k: nat :: Reports(trace, ReportOf(Run(trace), e), i, j, k) &&
              Genuine(trace, e.current, i, j, k) && NoneOutSince(trace, i + 1, e.current.tid)
  {
    var c, i, j, k := ReportHasChain(trace, e);
    ChainIsGenuine(trace, e, c, i, j, k);
    assert InsideSince(trace, i + 1, e.current);
  }

  lemma {:induction false} TwoTasks(trace: seq<Event>, t: Task, u: Task)
    requires t.tid != u.tid && forall m, x :: 0 <= m < |trace| && Names(trace[m], x) ==> x == t || x == u
    ensures Lifetimes(trace)
  {
  }

  /** The filter matters: a task that leaves its processor while outside the filter keeps its old
      wakeup, and the next time it runs that wakeup is reported though a switch-out came after it. */
  lemma {:induction false} OutsideTheFilterEvidenceIsStale(t: Task, idle: Task) returns (trace: seq<Event>, e: Event)
    requires t.tid != 0 && t.birth != 0 && idle.tid != t.tid
    ensures e.Snapshot? && e.current == t && Lifetimes(trace + [e]) && ReportOf(Run(trace), e).status == 2
    ensures |trace| == 6 && trace[2].Wakeup? && trace[4].Switch? && trace[4].prev == t == trace[4].current
    ensures trace[5].Switch? && trace[5].next == t
    ensures CurrentIsPrev(trace) && Reports(trace, ReportOf(Run(trace), e), 1, 2, 5)
    ensures !NoneOutSince(trace, 2, t.tid)
  {
    e := Snapshot(t, true, Stored, 9);
    trace := [e, Waking(t, 1, 0, 0, 0, idle, ""), Wakeup(t, 2), Switch(idle, t, idle, true, Stored, 3, 0),
              Switch(t, idle, t, false, Stored, 4, 0), Switch(idle, t, idle, true, Stored, 5, 0)];
    TwoTasks(trace + [e], t, idle);
    assert Chain(trace, t, 0, 1, 2, 5) && InTime(trace, 1, 2, 5, 9);
    ObservedExactlyWhenChained(trace, e);
    ChainProgress(trace, t, 0, 1, 2, 5, 6);
    assert trace[..6] == trace;
    assert SwitchesOut(trace[4], t.tid);
  }

  // ----- The programs

  class Programs {
    var table: Table

    constructor ()
      ensures table == Run([])
    {
      table := map[];
    }

    /** network_wakeup_current */
    method FindCurrent(t: Task, matches: bool, storage: Storage) returns (present: bool)
      modifies this
      ensures table == Current(old(table), t, matches, storage)
      ensures present == Present(old(table), t, matches, storage)
    {
      if !matches || t.tid == 0 || t.birth == 0 {
        return false;
      }
      if t.tid !in table || table[t.tid].birth != t.birth || table[t.tid].tgid != t.tgid {
        if storage.Refused? {
          return false;
        }
        table := table[t.tid := Blank(t)];
        if storage.Lost? {
          table := table - {t.tid};
        }
      }
      return t.tid in table;
    }

    /** network_wakeup_clear */
    method ClearEntry(tid: nat)
      requires tid in table
      modifies this
      ensures table == old(table)[tid := Clear(old(table)[tid])]
    {
      table := table[tid := table[tid].(waking := 0, wakeup := 0, run := 0)];
      table := table[tid := table[tid].(runCpu := 0, waker := NOBODY)];
    }

    method SchedWaking(e: Event)
      requires e.Waking?
      modifies this
      ensures table == Step(old(table), e)
    {
      var target := e.woken.tid;
      if target !in table {
        return;
      }
      ClearEntry(target);
      table := table[target := table[target].(waking := e.ts)];
      table := table[target := table[target].(waker := NOBODY.(cpu := e.cpu, context := e.context, count := e.count))];
      if e.context == 1 {
        if e.waker.tid != 0 && e.waker.birth != 0 {
          table := table[target := table[target].(waker := Waker(e.cpu, 1, e.count, e.waker, e.comm))];
        } else {
          table := table[target := table[target].(waker := table[target].waker.(context := 0, count := 0))];
        }
      }
    }

    method SchedWakeup(e: Event)
      requires e.Wakeup?
      modifies this
      ensures table == Step(old(table), e)
    {
      var target := e.woken.tid;
      if target in table && table[target].waking != 0 && table[target].run == 0 {
        table := table[target := table[target].(wakeup := e.ts)];
      }
    }

    method SchedSwitch(e: Event)
      requires e.Switch?
      modifies this
      ensures table == Step(old(table), e)
    {
      if e.prev.tid == e.current.tid {
        var present := FindCurrent(e.current, e.matches, e.storage);
        if present {
          ClearEntry(e.current.tid);
        }
      }
      if e.next.tid in table {
        table := table[e.next.tid := table[e.next.tid].(run := e.ts, runCpu := e.cpu)];
      }
    }

    /** network_wakeup_snapshot */
    method TakeSnapshot(e: Event) returns (r: Report)
      requires e.Snapshot?
      modifies this
      ensures table == Step(old(table), e) && r == ReportOf(old(table), e)
    {
      r := Report(1, 0, 0, 0, 0, NOBODY);
      var present := FindCurrent(e.current, e.matches, e.storage);
      if !present || table[e.current.tid].run == 0 || table[e.current.tid].run > e.start {
        return;
      }
      var state := table[e.current.tid];
      r := r.(status := 3, run := state.run, runCpu := state.runCpu);
      if state.waking == 0 || state.wakeup < state.waking || state.run < state.wakeup {
        return;
      }
      r := r.(status := 2, waking := state.waking, wakeup := state.wakeup, waker := state.waker);
    }
  }
}
