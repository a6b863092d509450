/** The call that submitted a packet, as remembered in the packet's stored instance: several
    submissions of one instance are reported only if they all name the same call. */
module Submission {
  import opened Bits
  import opened Wrappers

  /** A protocol call in progress in a task: the packed task id has the thread in its low half. */
  datatype Submission = Submission(start: nat, syscall: nat, task: nat, socket: nat, socketGeneration: nat)

  /** The fields of the stored instance. A zero start says that nothing was remembered yet. */
  datatype Io = Io(multiple: bool, call: Submission)

  /** The fields of the event that is being reported. */
  datatype Detail = Detail(multiple: bool, start: nat, syscall: nat, tid: nat, tgid: nat, role: nat)

  const NOTHING := Submission(0, 0, 0, 0, 0)

  /** One call is one start in one task on one socket; the enclosing syscall is not compared. */
  predicate SameCall(a: Submission, b: Submission) {
    a.start == b.start && a.task == b.task && a.socket == b.socket && a.socketGeneration == b.socketGeneration
  }

  /** perfetto_packet_remember_submission */
  function Remember(io: Io, sub: Submission): Io {
    if io.call.start != 0 && !SameCall(io.call, sub) then io.(multiple := true) else io.(call := sub)
  }

  function RememberAll(subs: seq<Submission>): Io {
    if subs == [] then Io(false, NOTHING) else Remember(RememberAll(subs[..|subs| - 1]), subs[|subs| - 1])
  }

  /** perfetto_packet_apply_submission */
  function Apply(io: Io, d: Detail): Detail {
    if io.multiple then Detail(true, 0, 0, 0, 0, 0)
    else if io.call.start == 0 then d
    else Detail(d.multiple, io.call.start, io.call.syscall, io.call.task % U32, io.call.task / U32,
                if NamesCall(d, io.call) then d.role else 4)
  }

  predicate NamesCall(d: Detail, call: Submission) {
    d.start == call.start && d.tid == call.task % U32 && d.tgid == call.task / U32
  }

  // ----- What the submissions say

  /** The first submission that can be remembered: a start of zero leaves nothing behind. */
  function First(subs: seq<Submission>): (r: Option<nat>)
    ensures r.Some? ==> r.value < |subs| && subs[r.value].start != 0
    ensures forall m :: 0 <= m < (if r.Some? then r.value else |subs|) ==> subs[m].start == 0
  {
    if subs == [] then None
    else
      var front := First(subs[..|subs| - 1]);
      if front.Some? then front
      else if subs[|subs| - 1].start != 0 then Some(|subs| - 1) else None
  }

  ghost predicate Agreed(subs: seq<Submission>, f: nat)
    requires f < |subs|
  {
    forall m :: f <= m < |subs| ==> SameCall(subs[m], subs[f])
  }

  /** The enclosing syscall of the last submission of the call that came first. */
  function LastSyscall(subs: seq<Submission>, call: Submission): nat {
    if subs == [] then 0
    else if SameCall(subs[|subs| - 1], call) then subs[|subs| - 1].syscall
    else LastSyscall(subs[..|subs| - 1], call)
  }

  /** The remembered fields, told from the submissions alone. Disagreement is noticed whenever there
      is any, and never forgotten. */
  lemma {:induction false} RememberedMeaning(subs: seq<Submission>)
    ensures First(subs).None? ==> !RememberAll(subs).multiple && RememberAll(subs).call.start == 0
    ensures First(subs).Some? ==>
              var first := subs[First(subs).value];
              SameCall(RememberAll(subs).call, first) &&
              RememberAll(subs).call.syscall == LastSyscall(subs, first) &&
              (RememberAll(subs).multiple <==> !Agreed(subs, First(subs).value))
  {
    if subs != [] {
      var front, last := subs[..|subs| - 1], subs[|subs| - 1];
      RememberedMeaning(front);
      if First(front).Some? {
        var f := First(front).value;
        assert Agreed(subs, f) <==> Agreed(front, f) && SameCall(last, subs[f]) by {
          assert forall m :: 0 <= m < |front| ==> front[m] == subs[m];
          assert Agreed(subs, f) ==> SameCall(subs[|subs| - 1], subs[f]);
        }
      }
    }
  }

  /** Two submissions are of one call exactly when they agree on its start, its task and the instance of
      its socket. */
  lemma {:induction false} SameCallExactly(a: Submission, b: Submission)
    ensures SameCall(a, b) <==>
            (a.start, a.task, a.socket, a.socketGeneration) == (b.start, b.task, b.socket, b.socketGeneration)
  {
  }

  /** An event names a submitting call exactly when all the submissions agree on it; when they do not,
      it says so and names none; and when there were none it is left as it was. */
  lemma {:induction false} ReportsOnlyWhatAllAgreeOn(subs: seq<Submission>, d: Detail)
    ensures var r := Apply(RememberAll(subs), d);
            match First(subs)
            case None => r == d
            case Some(f) =>
              if Agreed(subs, f)
              then NamesCall(r, subs[f]) && r.syscall == LastSyscall(subs, subs[f]) && r.multiple == d.multiple &&
                   r.role == (if NamesCall(d, subs[f]) then d.role else 4)
              else r == Detail(true, 0, 0, 0, 0, 0)
  {
    RememberedMeaning(subs);
  }
}
