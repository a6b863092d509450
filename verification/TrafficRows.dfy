/** Reading the counters: the rows of one pass over the kernel's table, which may show a flow more
    than once, are sorted by key and compacted in place to one row a flow. */
module TrafficRows {

  /** A row read from the table. The key is the number its bytes make in memcmp order. */
  datatype Flow = Flow(key: nat, firstSeen: nat, lastSeen: nat, rx: nat, tx: nat)

  /** Whether a row replaces an older one of the same flow. */
  predicate Newer(a: Flow, b: Flow) {
    a.firstSeen > b.firstSeen || (a.firstSeen == b.firstSeen && a.lastSeen >= b.lastSeen)
  }

  ghost predicate Sorted(s: seq<Flow>) {
    forall i, j :: 0 <= i < j < |s| ==> s[i].key <= s[j].key
  }

  /** One row more, after the ones already compacted. */
  function Merge(u: seq<Flow>, f: Flow): seq<Flow> {
    if u == [] || u[|u| - 1].key != f.key then u + [f]
    else if Newer(f, u[|u| - 1]) then u[|u| - 1 := f] else u
  }

  function Unique(s: seq<Flow>): (r: seq<Flow>)
    ensures |r| <= |s| && (s != [] ==> r != [])
  {
    if s == [] then [] else Merge(Unique(s[..|s| - 1]), s[|s| - 1])
  }

  /** The keys are the same on both sides, each once and in order, and the row kept for a key is one
      of its rows that no other row of the key is newer than, in whatever order the sort left them. */
  ghost predicate Newest(s: seq<Flow>, u: seq<Flow>) {
    Increasing(u) &&
    (forall i :: 0 <= i < |u| ==> u[i] in s) &&
    (forall k :: 0 <= k < |s| ==> Covered(u, s[k]))
  }

  ghost predicate Increasing(u: seq<Flow>) {
    forall i, j :: 0 <= i < j < |u| ==> u[i].key < u[j].key
  }

  /** Of a later generation, or of the same one and seen as late. */
  ghost predicate AtLeastAsNew(a: Flow, b: Flow) {
    a.firstSeen > b.firstSeen || (a.firstSeen == b.firstSeen && a.lastSeen >= b.lastSeen)
  }

  ghost predicate Covered(u: seq<Flow>, f: Flow) {
    exists i :: 0 <= i < |u| && u[i].key == f.key && AtLeastAsNew(u[i], f)
  }

  lemma {:induction false} LastIsLargest(s: seq<Flow>, u: seq<Flow>, f: Flow)
    requires Newest(s, u) && Sorted(s + [f])
    ensures forall i :: 0 <= i < |u| ==> u[i].key <= f.key
  {
    forall i | 0 <= i < |u| ensures u[i].key <= f.key {
      var k :| 0 <= k < |s| && s[k] == u[i];
      assert (s + [f])[k].key <= (s + [f])[|s|].key;
    }
  }

  lemma {:induction false} MergeCovers(u: seq<Flow>, f: Flow, g: Flow)
    requires Covered(u, g) || f == g
    ensures Covered(Merge(u, f), g)
  {
    var v := Merge(u, f);
    if f == g {
      assert v[|v| - 1].key == f.key && AtLeastAsNew(v[|v| - 1], f);
    } else {
      var i :| 0 <= i < |u| && u[i].key == g.key && AtLeastAsNew(u[i], g);
      assert v[i].key == g.key && AtLeastAsNew(v[i], g);
    }
  }

  lemma {:induction false} MergeKeepsNewest(s: seq<Flow>, u: seq<Flow>, f: Flow)
    requires Newest(s, u) && Sorted(s + [f])
    ensures Newest(s + [f], Merge(u, f))
  {
    var t, v := s + [f], Merge(u, f);
    LastIsLargest(s, u, f);
    forall k | 0 <= k < |t| ensures Covered(v, t[k]) {
      assert k < |s| ==> Covered(u, s[k]);
      MergeCovers(u, f, t[k]);
    }
    forall i | 0 <= i < |v| ensures v[i] in t {
      assert v[i] == f || v[i] == u[i];
      assert f == t[|s|];
      if v[i] != f { InLonger(s, f, u[i]); }
    }
    MergeIncreases(u, f);
  }

  lemma {:induction false} InLonger(s: seq<Flow>, f: Flow, g: Flow)
    requires g in s
    ensures g in s + [f]
  {
  }

  lemma {:induction false} MergeIncreases(u: seq<Flow>, f: Flow)
    requires Increasing(u) && forall i :: 0 <= i < |u| ==> u[i].key <= f.key
    ensures Increasing(Merge(u, f))
  {
    var v := Merge(u, f);
    forall i, j | 0 <= i < j < |v| ensures v[i].key < v[j].key {
      assert u[i].key <= u[|u| - 1].key;
    }
  }

  lemma {:induction false} SortedFront(s: seq<Flow>)
    requires Sorted(s) && s != []
    ensures Sorted(s[..|s| - 1])
  {
  }

  lemma {:induction false} UniqueKeepsNewest(s: seq<Flow>)
    requires Sorted(s)
    ensures Newest(s, Unique(s))
  {
    if s != [] {
      var front, last := s[..|s| - 1], s[|s| - 1];
      assert s == front + [last] && Unique(s) == Merge(Unique(front), last);
      SortedFront(s);
      UniqueKeepsNewest(front);
      MergeKeepsNewest(front, Unique(front), last);
    }
  }

  // ----- The sort

  /** A row put behind the last one that is not larger. */
  function Placed(s: seq<Flow>, f: Flow): seq<Flow> {
    if s == [] || s[|s| - 1].key <= f.key then s + [f] else Placed(s[..|s| - 1], f) + [s[|s| - 1]]
  }

  lemma {:induction false} PlacedIsPermutation(s: seq<Flow>, f: Flow)
    ensures multiset(Placed(s, f)) == multiset(s) + multiset{f}
  {
    if s != [] && s[|s| - 1].key > f.key {
      var front, last := s[..|s| - 1], s[|s| - 1];
      PlacedIsPermutation(front, f);
      assert s == front + [last];
    }
  }

  lemma {:induction false} PlacedAtMost(s: seq<Flow>, f: Flow, k: nat)
    requires f.key <= k && forall i :: 0 <= i < |s| ==> s[i].key <= k
    ensures forall i :: 0 <= i < |Placed(s, f)| ==> Placed(s, f)[i].key <= k
  {
    if s != [] && s[|s| - 1].key > f.key {
      PlacedAtMost(s[..|s| - 1], f, k);
    }
  }

  lemma {:induction false} PlacedIsSorted(s: seq<Flow>, f: Flow)
    requires Sorted(s)
    ensures Sorted(Placed(s, f))
  {
    if s != [] && s[|s| - 1].key > f.key {
      var front, last := s[..|s| - 1], s[|s| - 1];
      SortedFront(s);
      PlacedIsSorted(front, f);
      PlacedAtMost(front, f, last.key);
    }
  }

  /** qsort, of which only this is known: it leaves the same rows in order. */
  method SortRows(s: seq<Flow>) returns (r: seq<Flow>)
    ensures Sorted(r) && multiset(r) == multiset(s) && |r| == |s|
  {
    r := [];
    for i := 0 to |s|
      invariant Sorted(r) && multiset(r) == multiset(s[..i])
    {
      PlacedIsSorted(r, s[i]);
      PlacedIsPermutation(r, s[i]);
      assert s[..i + 1] == s[..i] + [s[i]];
      r := Placed(r, s[i]);
    }
    assert s[..|s|] == s;
    assert |multiset(r)| == |multiset(s)|;
  }

  /** Being the newest rows does not depend on the order. */
  lemma {:induction false} NewestOfPermutation(s: seq<Flow>, t: seq<Flow>, u: seq<Flow>)
    requires multiset(s) == multiset(t) && Newest(s, u)
    ensures Newest(t, u)
  {
    forall i | 0 <= i < |u| ensures u[i] in t {
      assert u[i] in s && u[i] in multiset(t);
    }
    forall k | 0 <= k < |t| ensures Covered(u, t[k]) {
      assert t[k] in multiset(s);
      var j :| 0 <= j < |s| && s[j] == t[k];
    }
  }

  // ----- The program

  /** The compaction loop. */
  method Compact(rows: array<Flow>, count: nat) returns (unique: nat)
    requires count <= rows.Length
    modifies rows
    ensures unique <= count && rows[..unique] == Unique(old(rows[..count]))
    ensures forall j :: count <= j < rows.Length ==> rows[j] == old(rows[j])
  {
    ghost var was := rows[..];
    unique := 0;
    for i := 0 to count
      invariant unique <= i && (i > 0 ==> unique > 0)
      invariant rows[..unique] == Unique(was[..i])
      invariant forall j :: i <= j < rows.Length ==> rows[j] == was[j]
    {
      ghost var u := rows[..unique];
      assert was[..i + 1][..i] == was[..i] && rows[i] == was[i];
      assert Unique(was[..i + 1]) == Merge(u, rows[i]);
      if unique > 0 && rows[unique - 1].key == rows[i].key {
        if Newer(rows[i], rows[unique - 1]) {
          rows[unique - 1] := rows[i];
        }
      } else {
        rows[unique] := rows[i];
        unique := unique + 1;
      }
      assert rows[..unique] == Merge(u, was[i]);
    }
    assert was[..count] == old(rows[..count]);
  }

  method Store(rows: array<Flow>, s: seq<Flow>)
    requires |s| <= rows.Length
    modifies rows
    ensures rows[..|s|] == s
    ensures forall j :: |s| <= j < rows.Length ==> rows[j] == old(rows[j])
  {
    forall i | 0 <= i < |s| {
      rows[i] := s[i];
    }
  }

  /** traffic_unique_flows */
  method UniqueFlows(rows: array<Flow>, count: nat) returns (unique: nat)
    requires count <= rows.Length
    modifies rows
    ensures unique <= count && Newest(old(rows[..count]), rows[..unique])
    ensures forall j :: count <= j < rows.Length ==> rows[j] == old(rows[j])
  {
    ghost var was := rows[..count];
    var sorted := SortRows(rows[..count]);
    Store(rows, sorted);
    unique := Compact(rows, count);
    UniqueKeepsNewest(sorted);
    NewestOfPermutation(sorted, was, rows[..unique]);
  }
}
