/** The rate limiter of the tracing programs: a budget that is refilled from the time since the last
    refill, in 64-bit and 32-bit machine arithmetic, and the bound it keeps over every run. */
module RateLimit {
  import opened Bits

  /** The budget starts at the limit; a zero `last` says that no call has come yet. */
  datatype State = State(limit: int, budget: int, last: nat)

  /** The clock as a call reads it: at its start if it is the first, and for a refill. */
  datatype Call = Call(first: nat, second: nat)

  /** Conversion of an `int` to 64 bits and of 64 bits to an `int`. */
  function Wide(x: int): nat {
    x % U64
  }

  function Narrow(x: nat): (r: int)
    ensures r <= x
  {
    var low := x % U32;
    if low < 0x8000_0000 then low else low - U32
  }

  /** The refill for the time between two readings of the clock. */
  function Refill(last: nat, now: nat, limit: int): int {
    Narrow(Wide(Wide(now - last) / 1000000 * Wide(limit)) / 1000)
  }

  function Min(x: int, y: int): int {
    if x < y then x else y
  }

  function Since(s: State, c: Call): nat {
    if s.last == 0 then c.first else s.last
  }

  predicate Admits(s: State, c: Call) {
    s.limit == 0 || s.budget > 0 || Min(Refill(Since(s, c), c.second, s.limit), s.limit) > 0
  }

  /** check_rate_limit: a call that is turned away leaves the budget and the time of the last refill. */
  function Step(s: State, c: Call): State {
    if s.limit == 0 then s
    else if s.budget > 0 then s.(budget := s.budget - 1, last := Since(s, c))
    else if Admits(s, c)
    then s.(budget := Min(Refill(Since(s, c), c.second, s.limit), s.limit) - 1, last := c.second)
    else s.(last := Since(s, c))
  }

  function Start(limit: int): State {
    State(limit, limit, 0)
  }

  function Run(limit: int, calls: seq<Call>): State {
    if calls == [] then Start(limit) else Step(Run(limit, calls[..|calls| - 1]), calls[|calls| - 1])
  }

  function Admitted(limit: int, calls: seq<Call>): nat {
    if calls == [] then 0
    else
      var front := calls[..|calls| - 1];
      Admitted(limit, front) + if Admits(Run(limit, front), calls[|calls| - 1]) then 1 else 0
  }

  // ----- A refill is never more than the time was worth

  lemma {:induction false} WideAtMost(x: nat)
    ensures Wide(x) <= x
  {
  }

  lemma {:induction false} Milliseconds(d: nat, limit: nat)
    ensures (d / 1000000 * limit) / 1000 * 1_000_000_000 <= d * limit
  {
    var m := d / 1000000;
    var q := (m * limit) / 1000;
    assert q * 1000 <= m * limit;
    assert m * 1000000 * limit <= d * limit by { Scale(m * 1000000, d, limit); }
    assert m * limit * 1000000 == m * 1000000 * limit;
  }

  lemma {:induction false} Scale(a: nat, b: nat, c: nat)
    requires a <= b
    ensures a * c <= b * c
  {
  }

  lemma {:induction false} DivideLess(a: nat, b: nat, n: nat)
    requires a <= b && 0 < n
    ensures a / n <= b / n
  {
    if a / n > b / n {
      Scale(b / n + 1, a / n, n);
    }
  }

  /** Flooring, wrapping and truncating all err on the low side. */
  lemma {:induction false} RefillIsEarned(last: nat, now: nat, limit: nat)
    requires last <= now && 0 < limit < U32
    ensures Refill(last, now, limit) * 1_000_000_000 <= (now - last) * limit
  {
    var d, w := now - last, Wide(now - last);
    WideAtMost(d);
    WideAtMost(w / 1000000 * limit);
    DivideLess(Wide(w / 1000000 * limit), w / 1000000 * limit, 1000);
    Milliseconds(w, limit);
    Scale(w, d, limit);
    assert Wide(limit) == limit;
  }

  // ----- The bound over every run

  /** The clock never goes back, within a call or between calls. */
  ghost predicate Forward(calls: seq<Call>) {
    (forall i :: 0 <= i < |calls| ==> calls[i].first <= calls[i].second) &&
    (forall i, j :: 0 <= i < j < |calls| ==> calls[i].second <= calls[j].first)
  }

  function Spare(s: State): nat {
    if s.budget > 0 then s.budget else 0
  }

  /** What was admitted and what is left were paid for by the starting budget and by the time from the
      first call to the last refill. */
  ghost predicate Paid(s: State, first: nat, admitted: nat) {
    (s.last == 0 || first <= s.last) &&
    (admitted + Spare(s)) * 1_000_000_000 <= s.limit * 1_000_000_000 + Worth(s, first)
  }

  function Worth(s: State, first: nat): int {
    if s.last == 0 then 0 else s.limit * (s.last - first)
  }

  lemma {:induction false} StepPays(s: State, c: Call, first: nat, admitted: nat)
    requires 0 < s.limit < U32 && first <= c.first <= c.second && s.last <= c.first && Paid(s, first, admitted)
    ensures Paid(Step(s, c), first, admitted + if Admits(s, c) then 1 else 0)
    ensures Step(s, c).limit == s.limit && Step(s, c).last <= c.second
  {
    var since := Since(s, c);
    var s' := s.(last := since);
    assert Worth(s, first) <= s.limit * (since - first);
    assert since == 0 ==> s.limit * (since - first) == 0;
    assert Paid(s', first, admitted);
    if s.budget <= 0 && Admits(s, c) {
      RefillPays(s', c.second, first, admitted);
    }
  }

  lemma {:induction false} RefillPays(s: State, now: nat, first: nat, admitted: nat)
    requires 0 < s.limit < U32 && s.budget <= 0 && s.last <= now && first <= now && Paid(s, first, admitted)
    requires s.last == 0 ==> first == 0
    ensures var granted := Min(Refill(s.last, now, s.limit), s.limit);
            granted > 0 ==> Paid(s.(budget := granted - 1, last := now), first, admitted + 1)
  {
    RefillIsEarned(s.last, now, s.limit);
    var granted := Min(Refill(s.last, now, s.limit), s.limit);
    assert granted * 1_000_000_000 <= (now - s.last) * s.limit;
    assert s.limit * (s.last - first) + (now - s.last) * s.limit == s.limit * (now - first);
    assert now == 0 ==> s.limit * (now - first) == 0;
  }

  lemma {:induction false} RunPays(limit: int, calls: seq<Call>)
    requires 0 < limit < U32 && Forward(calls) && calls != []
    ensures var s := Run(limit, calls);
            s.limit == limit && s.last <= calls[|calls| - 1].second && Paid(s, calls[0].first, Admitted(limit, calls))
  {
    var front, c := calls[..|calls| - 1], calls[|calls| - 1];
    if front != [] {
      RunPays(limit, front);
      assert calls[|calls| - 2].second <= c.first;
    }
    StepPays(Run(limit, front), c, calls[0].first, Admitted(limit, front));
  }

  /** For every run with a positive limit whose clock never goes back, the calls admitted are at most
      the limit and the limit once more for every second since the first call. */
  lemma {:induction false} AdmissionsAreBounded(limit: int, calls: seq<Call>)
    requires 0 < limit < 0x8000_0000 && Forward(calls) && calls != []
    ensures Admitted(limit, calls) * 1_000_000_000 <=
            limit * 1_000_000_000 + limit * (calls[|calls| - 1].second - calls[0].first)
  {
    RunPays(limit, calls);
    FirstBeforeLast(calls);
    PaidIsBounded(Run(limit, calls), calls[0].first, calls[|calls| - 1].second, Admitted(limit, calls));
  }

  lemma {:induction false} FirstBeforeLast(calls: seq<Call>)
    requires Forward(calls) && calls != []
    ensures calls[0].first <= calls[|calls| - 1].second
  {
    assert calls[0].first <= calls[0].second && calls[|calls| - 1].first <= calls[|calls| - 1].second;
    if |calls| > 1 { assert calls[0].second <= calls[|calls| - 1].first; }
  }

  lemma {:induction false} PaidIsBounded(s: State, first: nat, now: nat, admitted: nat)
    requires 0 < s.limit && s.last <= now && first <= now && Paid(s, first, admitted)
    ensures admitted * 1_000_000_000 <= s.limit * 1_000_000_000 + s.limit * (now - first)
  {
    Scale(if s.last == 0 then 0 else s.last - first, now - first, s.limit);
  }

  // ----- When a call is admitted

  /** The first calls up to the limit are all admitted. */
  lemma {:induction false} BurstIsAdmitted(limit: nat, calls: seq<Call>)
    requires |calls| <= limit
    ensures Admitted(limit, calls) == |calls| && Run(limit, calls).limit == limit
    ensures Run(limit, calls).budget == limit - |calls|
  {
    if calls != [] { BurstIsAdmitted(limit, calls[..|calls| - 1]); }
  }

  /** No limit admits everything; a limit that does not fit an `int` admits nothing. */
  lemma {:induction false} EdgeLimits(limit: int, calls: seq<Call>)
    requires limit <= 0
    ensures Run(limit, calls).limit == limit == Run(limit, calls).budget
    ensures Admitted(limit, calls) == if limit == 0 then |calls| else 0
  {
    if calls != [] { EdgeLimits(limit, calls[..|calls| - 1]); }
  }

  /** What the time between two readings of the clock is worth, in 64-bit arithmetic. */
  function Worth64(last: nat, now: nat, limit: nat): nat {
    ((now - last) % U64 / 1000000 * limit) % U64 / 1000
  }

  /** With an empty budget a call is admitted exactly when the low 32 bits of what the time was worth
      make a positive `int`. */
  lemma {:induction false} RefillExactly(s: State, c: Call)
    requires 0 < s.limit < 0x8000_0000 && s.budget <= 0
    ensures Admits(s, c) <==> 0 < Worth64(Since(s, c), c.second, s.limit) % U32 < 0x8000_0000
  {
    WideSmall(s.limit);
    NarrowPositive(Worth64(Since(s, c), c.second, s.limit));
  }

  lemma {:induction false} WideSmall(x: nat)
    requires x < U64
    ensures Wide(x) == x
  {
  }

  lemma {:induction false} NarrowPositive(x: nat)
    ensures Narrow(x) > 0 <==> 0 < x % U32 < 0x8000_0000
  {
  }

  /** The milliseconds that are worth 2^31 at a limit, or just more. */
  function Silence(limit: nat): (ms: nat)
    requires 0 < limit < 0x8000_0000
    ensures 0x8000_0000 * 1000 <= ms * limit < 0x8000_0000 * 1000 + limit
    ensures ms <= 0x8000_0000 * 1000
  {
    var ms := (0x8000_0000 * 1000 + limit - 1) / limit;
    RoundUp(0x8000_0000 * 1000, limit);
    ms
  }

  lemma {:induction false} RoundUp(n: nat, d: nat)
    requires 0 < d
    ensures var q := (n + d - 1) / d; n <= q * d < n + d && q <= n
  {
    var q := (n + d - 1) / d;
    assert q * d <= n + d - 1 < q * d + d;
    if q > n { Scale(n + 1, q, d); }
    assert n > 0 ==> n * d >= n;
    Absorb(n, d);
  }

  lemma {:induction false} Absorb(n: nat, d: nat)
    requires 0 < d
    ensures n + d - 1 < (n + 1) * d
  {
    Scale(1, d, n);
  }

  /** A burst of `n` calls at one moment. */
  function Burst(n: nat): seq<Call> {
    if n == 0 then [] else Burst(n - 1) + [Call(1, 1)]
  }

  lemma {:induction false} BurstUsesBudget(limit: nat, n: nat)
    requires n <= limit
    ensures |Burst(n)| == n && (forall i :: 0 <= i < n ==> Burst(n)[i] == Call(1, 1))
    ensures Run(limit, Burst(n)) == State(limit, limit - n, if n == 0 then 0 else 1)
    ensures Admitted(limit, Burst(n)) == n
  {
    if n > 0 {
      var front, calls := Burst(n - 1), Burst(n);
      BurstUsesBudget(limit, n - 1);
      BurstStep(limit, limit - (n - 1), if n == 1 then 0 else 1);
      OneMore(limit, front, Call(1, 1));
      assert calls == front + [Call(1, 1)];
    }
  }

  lemma {:induction false} OneMore(limit: int, calls: seq<Call>, c: Call)
    ensures Run(limit, calls + [c]) == Step(Run(limit, calls), c)
    ensures Admitted(limit, calls + [c]) == Admitted(limit, calls) + if Admits(Run(limit, calls), c) then 1 else 0
  {
    assert (calls + [c])[..|calls + [c]| - 1] == calls;
  }

  lemma {:induction false} BurstStep(limit: nat, left: nat, last: nat)
    requires 0 < left <= limit && last <= 1
    ensures Admits(State(limit, left, last), Call(1, 1))
    ensures Step(State(limit, left, last), Call(1, 1)) == State(limit, left - 1, 1)
  {
  }

  lemma {:induction false} SilenceIsWorth(limit: nat)
    requires 0 < limit < 0x8000_0000
    ensures 0x8000_0000 <= Worth64(1, 1 + Silence(limit) * 1000000, limit) < U32
  {
    var ms := Silence(limit);
    var product := ms * limit;
    RemainderOfSmall(ms * 1000000);
    RemainderOfSmall(product);
    assert ms * 1000000 / 1000000 == ms;
    assert Worth64(1, 1 + ms * 1000000, limit) == product / 1000;
  }

  lemma {:induction false} RemainderOfSmall(x: nat)
    requires x < U64
    ensures x % U64 == x
  {
  }

  /** So a limiter that was left alone for too long turns the next call away, at every limit: a burst
      uses the budget up, and the next call comes after a silence worth 2^31 calls or just more (at a
      limit of a million calls a second this is 36 minutes). */
  lemma {:induction false} LongSilenceIsTurnedAway(limit: nat) returns (calls: seq<Call>, late: Call)
    requires 0 < limit < 0x8000_0000
    ensures calls == Burst(limit) && late.first == late.second == 1 + Silence(limit) * 1000000
    ensures Forward(calls + [late]) && Admitted(limit, calls) == limit
    ensures !Admits(Run(limit, calls), late) && Worth64(1, late.second, limit) > limit
  {
    calls, late := Burst(limit), Call(1 + Silence(limit) * 1000000, 1 + Silence(limit) * 1000000);
    BurstUsesBudget(limit, limit);
    SilenceIsWorth(limit);
    RefillExactly(State(limit, 0, 1), late);
    RemainderOfWorth(Worth64(1, late.second, limit));
  }

  lemma {:induction false} RemainderOfWorth(x: nat)
    requires x < U32
    ensures x % U32 == x
  {
  }

  // ----- A refill is spent in full, and waiting is not punished

  /** What a refill grants: what the time was worth, cut to an `int` and capped at the limit. */
  function Granted(last: nat, now: nat, limit: nat): int {
    var worth := Worth64(last, now, limit) % U32;
    var signed := if worth < 0x8000_0000 then worth else worth - U32;
    if signed < limit then signed else limit
  }

  lemma {:induction false} RefillIsGranted(s: State, c: Call)
    requires 0 < s.limit < 0x8000_0000 && s.budget <= 0
    ensures Admits(s, c) <==> Granted(Since(s, c), c.second, s.limit) > 0
    ensures Admits(s, c) ==>
              Step(s, c) == s.(budget := Granted(Since(s, c), c.second, s.limit) - 1, last := c.second)
  {
    WideSmall(s.limit);
  }

  /** All calls of a sequence are admitted from a state. */
  ghost predicate AllAdmitted(s: State, calls: seq<Call>)
    decreases |calls|
  {
    calls == [] || (Admits(s, calls[0]) && AllAdmitted(Step(s, calls[0]), calls[1..]))
  }

  ghost function After(s: State, calls: seq<Call>): State
    decreases |calls|
  {
    if calls == [] then s else After(Step(s, calls[0]), calls[1..])
  }

  /** As many calls as the budget says are admitted one after the other, whenever they come, and then the
      budget is empty. */
  lemma {:induction false} BudgetIsSpent(s: State, calls: seq<Call>)
    requires 0 < s.limit && 0 < s.last && |calls| <= s.budget
    ensures AllAdmitted(s, calls) && After(s, calls) == s.(budget := s.budget - |calls|)
    decreases |calls|
  {
    if calls != [] { BudgetIsSpent(Step(s, calls[0]), calls[1..]); }
  }

  /** A refill that grants `n` calls admits the call that asked and exactly the next `n - 1`: then the
      budget is empty, and the time of this refill counts. */
  lemma {:induction false} RefillIsSpent(s: State, c: Call, more: seq<Call>)
    requires 0 < s.limit < 0x8000_0000 && s.budget <= 0 && 0 < c.second
    requires |more| == Granted(Since(s, c), c.second, s.limit) - 1
    ensures AllAdmitted(s, [c] + more) && After(s, [c] + more) == s.(budget := 0, last := c.second)
  {
    RefillIsGranted(s, c);
    BudgetIsSpent(Step(s, c), more);
    assert ([c] + more)[1..] == more;
  }

  /** None of the calls is admitted. */
  ghost predicate NoneAdmitted(s: State, calls: seq<Call>)
    decreases |calls|
  {
    calls == [] || (!Admits(s, calls[0]) && NoneAdmitted(Step(s, calls[0]), calls[1..]))
  }

  /** Calls that are turned away cost nothing: the time goes on counting from the last refill. */
  lemma {:induction false} RejectionsCostNothing(s: State, calls: seq<Call>)
    requires 0 < s.last && NoneAdmitted(s, calls)
    ensures After(s, calls) == s
    decreases |calls|
  {
    if calls != [] { RejectionsCostNothing(Step(s, calls[0]), calls[1..]); }
  }

  // ----- The program

  class Limiter {
    const limit: int
    var budget: int
    var last: nat

    function Model(): State
      reads this
    {
      State(limit, budget, last)
    }

    constructor (limit: int)
      ensures Model() == Start(limit)
    {
      this.limit, this.budget, this.last := limit, limit, 0;
    }

    /** check_rate_limit */
    method Check(c: Call) returns (admitted: bool)
      modifies this
      ensures admitted == Admits(old(Model()), c)
      ensures Model() == Step(old(Model()), c)
    {
      if limit == 0 {
        return true;
      }
      var since := last;
      if since == 0 {
        since := c.first;
        last := since;
      }
      var left := budget;
      if left <= 0 {
        left := Refill(since, c.second, limit);
        left := if left < limit then left else limit;
        if left <= 0 {
          return false;
        }
        last := c.second;
      }
      budget := left - 1;
      return true;
    }
  }
}
