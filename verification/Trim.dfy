/** The trace trimmer as functions on bytes, step for step as the program takes them, and what
    they mean in terms of parsed fields. */
module Trim {
  import opened Wrappers
  import opened Bits
  import opened Wire

  const CLOCK_BOOTTIME := 6
  const CLOCK_MONOTONIC := 3

  /** Cutoffs below which timestamps are dropped. */
  datatype Cutoffs = Cutoffs(boottime: nat, monotonic: nat)

  // ----- Reading one number out of a message

  predicate IsVarint(f: Field, number: nat) {
    f.Number() == number && f.WireType() == 0
  }

  /** The last varint with the given number; later occurrences override earlier ones. */
  function LastOf(fs: seq<Field>, number: nat): Option<nat> {
    if fs == [] then None
    else
      var last := fs[|fs| - 1];
      if IsVarint(last, number) then Some(last.value) else LastOf(fs[..|fs| - 1], number)
  }

  /** message_varint, and event_timestamp for number 1. */
  function LastVarint(s: seq<byte>, number: nat): Result<Option<nat>> {
    var fs :- ParseFields(s);
    Ok(LastOf(fs, number))
  }

  // ----- Ftrace bundles

  predicate IsBundle(f: Field) {
    f.Number() == 1 && f.WireType() == 2
  }

  predicate IsEvent(f: Field) {
    f.Number() == 2 && f.WireType() == 2
  }

  /** The bytes a field of a bundle leaves in the output. */
  function TrimBundleField(f: Field, cutoff: nat): Result<seq<byte>> {
    if f.Number() == 4 then Err(CompressedBundle)
    else if !IsEvent(f) then Ok(f.raw)
    else
      var stamp :- LastVarint(f.payload, 1);
      Ok(if stamp.None? || stamp.value >= cutoff then f.raw else [])
  }

  /** trim_ftrace_bundle */
  function TrimBundle(s: seq<byte>, cutoff: nat): Result<seq<byte>>
    decreases |s|
  {
    if s == [] then Ok([])
    else
      var f :- NextField(s);
      NextFieldFacts(s, []);
      var piece :- TrimBundleField(f, cutoff);
      var rest :- TrimBundle(s[|f.raw|..], cutoff);
      Ok(piece + rest)
  }

  /** An event is dropped exactly when it carries a timestamp below the cutoff. */
  ghost predicate Recent(f: Field, cutoff: nat) {
    match LastVarint(f.payload, 1)
    case Ok(Some(t)) => t >= cutoff
    case _ => true
  }

  ghost function KeptFields(fs: seq<Field>, cutoff: nat): seq<Field> {
    if fs == [] then []
    else (if IsEvent(fs[0]) && !Recent(fs[0], cutoff) then [] else [fs[0]]) + KeptFields(fs[1..], cutoff)
  }

  /** Which bundles can be trimmed at all. */
  ghost predicate Trimmable(fs: seq<Field>) {
    forall i :: 0 <= i < |fs| ==> fs[i].Number() != 4 && (IsEvent(fs[i]) ==> ParseFields(fs[i].payload).Ok?)
  }

  /** A bundle can be trimmed exactly when it parses, has no compressed part and its events parse;
      the result holds the fields of the bundle in order, minus the events stamped below the
      cutoff, is no longer than the bundle, and is left alone by a second pass. */
  lemma {:induction false} BundleMeaning(s: seq<byte>, cutoff: nat)
    ensures TrimBundle(s, cutoff).Ok? <==> ParseFields(s).Ok? && Trimmable(ParseFields(s).value)
    ensures TrimBundle(s, cutoff).Ok? ==>
              var out := TrimBundle(s, cutoff).value;
              |out| <= |s| && ParseFields(out) == Ok(KeptFields(ParseFields(s).value, cutoff)) &&
              TrimBundle(out, cutoff) == Ok(out)
    decreases |s|
  {
    if s != [] && NextField(s).Ok? {
      var f := NextField(s).value;
      NextFieldFacts(s, []);
      var rest := s[|f.raw|..];
      BundleMeaning(rest, cutoff);
      if ParseFields(rest).Ok? {
        TrimmableCons(f, ParseFields(rest).value);
      }
      if TrimBundleField(f, cutoff).Ok? && TrimBundle(rest, cutoff).Ok? {
        BundleStep(s, f, rest, TrimBundle(rest, cutoff).value, cutoff);
      }
    }
  }

  lemma {:induction false} TrimmableCons(f: Field, fs: seq<Field>)
    ensures Trimmable([f] + fs) <==>
            f.Number() != 4 && (IsEvent(f) ==> ParseFields(f.payload).Ok?) && Trimmable(fs)
  {
    assert ([f] + fs)[0] == f;
    assert forall i :: 0 <= i < |fs| ==> ([f] + fs)[i + 1] == fs[i];
  }

  lemma {:induction false} BundleStep(s: seq<byte>, f: Field, rest: seq<byte>, out: seq<byte>, cutoff: nat)
    requires s != [] && NextField(s) == Ok(f) && f.raw != [] && s == f.raw + rest
    requires TrimBundleField(f, cutoff).Ok? && ParseFields(rest).Ok?
    requires ParseFields(out) == Ok(KeptFields(ParseFields(rest).value, cutoff)) && TrimBundle(out, cutoff) == Ok(out)
    ensures ParseFields(s).Ok?
    ensures var piece := TrimBundleField(f, cutoff).value;
            ParseFields(piece + out) == Ok(KeptFields(ParseFields(s).value, cutoff)) &&
            TrimBundle(piece + out, cutoff) == Ok(piece + out)
  {
    var fs := ParseFields(rest).value;
    ParseCons(f, rest);
    assert ([f] + fs)[1..] == fs;
    if TrimBundleField(f, cutoff).value == [] {
      assert [] + out == out && [] + KeptFields(fs, cutoff) == KeptFields(fs, cutoff);
    } else {
      NextFieldFacts(s, out);
      KeptFieldInFront(f, out, cutoff);
    }
  }

  /** A field that is kept stays in front of what was trimmed behind it. */
  lemma {:induction false} KeptFieldInFront(f: Field, out: seq<byte>, cutoff: nat)
    requires f.raw != [] && NextField(f.raw + out) == Ok(f) && TrimBundleField(f, cutoff) == Ok(f.raw)
    requires ParseFields(out).Ok? && TrimBundle(out, cutoff) == Ok(out)
    ensures ParseFields(f.raw + out) == Ok([f] + ParseFields(out).value)
    ensures TrimBundle(f.raw + out, cutoff) == Ok(f.raw + out)
  {
    ParseCons(f, out);
    assert (f.raw + out)[|f.raw|..] == out;
  }
}
