/** The quarantine list of the RX ownership gate: singly linked nodes edited in place.  A link the
    program passes as a pointer to a pointer is the predecessor node here, null for the head.
    `nodes` and `entries` are the ghost view of the chain. */
module PendingList {
  import opened RxGate
  import RxGateRuns

  class Pending {
    var next: Pending?
    var entry: Entry

    constructor (entry: Entry)
      ensures next == null && this.entry == entry
    {
      next := null;
      this.entry := entry;
    }
  }

  ghost predicate Distinct(nodes: seq<Pending>) {
    forall i, j :: 0 <= i < j < |nodes| ==> nodes[i] != nodes[j]
  }

  ghost function Without<T>(s: seq<T>, k: nat): (r: seq<T>)
    requires k < |s|
    ensures |r| == |s| - 1
    ensures forall i :: 0 <= i < k ==> r[i] == s[i]
    ensures forall i :: k <= i < |r| ==> r[i] == s[i + 1]
  {
    s[..k] + s[k + 1..]
  }

  ghost function With<T>(s: seq<T>, k: nat, x: T): (r: seq<T>)
    requires k <= |s|
    ensures |r| == |s| + 1 && r[k] == x
    ensures forall i :: 0 <= i < k ==> r[i] == s[i]
    ensures forall i :: k < i < |r| ==> r[i] == s[i - 1]
  {
    s[..k] + [x] + s[k..]
  }

  lemma {:induction false} DistinctWithout(s: seq<Pending>, k: nat)
    requires k < |s| && Distinct(s)
    ensures Distinct(Without(s, k))
  {
  }

  lemma {:induction false} DistinctWith(s: seq<Pending>, k: nat, x: Pending)
    requires k <= |s| && Distinct(s) && x !in s
    ensures Distinct(With(s, k, x))
  {
    var r := With(s, k, x);
    forall i, j | 0 <= i < j < |r| ensures r[i] != r[j] {
      if i != k && j != k {
        assert s[if i < k then i else i - 1] != s[if j < k then j else j - 1];
      }
    }
  }

  /** In a sorted list whose last entry is no younger, the new entry belongs at the end. */
  lemma {:induction false} AppendIsInOrder(list: seq<Entry>, ts: nat)
    requires RxGateRuns.StablySorted(list)
    requires list == [] || list[|list| - 1].detail.ts <= ts
    ensures InsertPosition(list, 0, ts) == |list|
  {
    var p := InsertPosition(list, 0, ts);
    if 0 < |list| {
      assert forall i :: 0 <= i < |list| - 1 ==> RxGateRuns.Before(list[i], list[|list| - 1]);
    }
  }

  lemma {:induction false} BytesWith(l: Limits, list: seq<Entry>, p: nat, e: Entry)
    requires l.Ok() && p <= |list|
    ensures |With(list, p, e)| == |list| + 1 && Bytes(l, With(list, p, e)) == Bytes(l, list) + l.Allocation(e.size)
  {
    RxGateRuns.BytesInsert(l, list, p, e);
  }

  class List {
    const l: Limits
    var head: Pending?
    var tail: Pending?
    var count: nat
    var bytes: nat
    ghost var nodes: seq<Pending>
    ghost var entries: seq<Entry>
    ghost var repr: set<Pending>

    /** The node at `i`, or null past the end. */
    ghost function At(i: nat): Pending?
      reads this`nodes
    {
      if i < |nodes| then nodes[i] else null
    }

    /** The link that leads to the node at `i`: its predecessor, or null for the head. */
    ghost predicate IsLink(prev: Pending?, i: nat)
      reads this`nodes
    {
      i <= |nodes| && prev == if i == 0 then null else nodes[i - 1]
    }

    ghost predicate Holds()
      reads this`nodes, this`entries, this`repr, repr`entry
    {
      |entries| == |nodes| && forall i :: 0 <= i < |nodes| ==> nodes[i] in repr && nodes[i].entry == entries[i]
    }

    ghost predicate Chained()
      reads this`head, this`nodes, this`repr, repr`next
    {
      head == At(0) && forall i :: 0 <= i < |nodes| ==> nodes[i] in repr && nodes[i].next == At(i + 1)
    }

    ghost predicate Linked()
      reads this`head, this`nodes, this`entries, this`repr, repr
    {
      Distinct(nodes) && Holds() && Chained()
    }

    ghost predicate TailIsLast()
      reads this`tail, this`nodes
    {
      IsLink(tail, |nodes|)
    }

    ghost predicate Totals()
      reads this`count, this`bytes, this`entries
    {
      l.Ok() && count == |entries| && bytes == Bytes(l, entries)
    }

    ghost predicate Valid()
      reads this, repr
    {
      Linked() && TailIsLast() && Totals()
    }

    constructor (l: Limits)
      requires l.Ok()
      ensures Valid() && this.l == l && nodes == [] && entries == [] && repr == {}
    {
      this.l := l;
      head, tail, count, bytes, nodes, entries, repr := null, null, 0, 0, [], [], {};
    }

    /** The node a link leads to. */
    method Follow(prev: Pending?, ghost i: nat) returns (node: Pending?)
      requires Linked() && IsLink(prev, i)
      ensures node == At(i)
    {
      node := if prev == null then head else prev.next;
    }

    /** Unlink the head; the tail is dropped with the last node. */
    method RemoveHead()
      requires Linked() && nodes != []
      modifies this`head, this`tail, this`nodes, this`entries
      ensures Linked() && nodes == Without(old(nodes), 0) && entries == Without(old(entries), 0)
      ensures tail == if nodes == [] then null else old(tail)
    {
      assert head.next == At(1);
      DistinctWithout(nodes, 0);
      head := head.next;
      nodes := Without(nodes, 0);
      entries := Without(entries, 0);
      if head == null {
        tail := null;
      }
    }

    method RemoveAfter(prev: Pending, ghost k: nat)
      requires Linked() && 0 < k < |nodes| && prev == nodes[k - 1]
      modifies this`head, this`tail, this`nodes, this`entries, prev
      ensures Linked() && nodes == Without(old(nodes), k) && entries == Without(old(entries), k)
      ensures tail == old(tail)
    {
      ghost var was := nodes;
      assert prev.next == At(k) && nodes[k].next == At(k + 1);
      prev.next := prev.next.next;
      nodes := Without(was, k);
      entries := Without(entries, k);
      DistinctWithout(was, k);
      forall i | 0 <= i < |nodes| ensures nodes[i].next == At(i + 1) {
        if i != k - 1 { assert was[if i < k then i else i + 1] != prev; }
      }
    }

    /** Unlink the node that `prev` leads to. */
    method Unlink(prev: Pending?, ghost k: nat)
      requires Linked() && k < |nodes| && IsLink(prev, k)
      modifies this`head, this`tail, this`nodes, this`entries, repr
      ensures Linked() && nodes == Without(old(nodes), k) && entries == Without(old(entries), k)
      ensures tail == if nodes == [] then null else old(tail)
    {
      if prev == null {
        RemoveHead();
      } else {
        RemoveAfter(prev, k);
      }
    }

    /** rx_context_remove: unlink the node that `prev` leads to and take it off the totals. */
    method Remove(prev: Pending?, entry: Pending, ghost k: nat)
      requires Linked() && Totals() && k < |nodes| && IsLink(prev, k) && entry == nodes[k]
      modifies this`head, this`tail, this`nodes, this`entries, this`count, this`bytes, repr
      ensures Linked() && Totals()
      ensures nodes == Without(old(nodes), k) && entries == Without(old(entries), k)
      ensures tail == if nodes == [] then null else old(tail)
    {
      RxGateRuns.BytesWithout(l, entries, k);
      ghost var size := entries[k].size;
      assert entry.entry.size == size;
      var freed := l.Allocation(entry.entry.size);
      Unlink(prev, k);
      Charge(count - 1, bytes - freed);
    }

    /** Remove the head of a complete list. */
    method RemoveOldest()
      requires Valid() && entries != []
      modifies this`head, this`tail, this`nodes, this`entries, this`count, this`bytes, repr
      ensures Valid() && nodes == Without(old(nodes), 0) && entries == Without(old(entries), 0)
    {
      assert head == At(0);
      Remove(null, head, 0);
    }

    /** Apply evidence to a record in place, unlink it and hand it out for emission. */
    method Take(prev: Pending?, entry: Pending, ghost k: nat, evidence: Owner) returns (marked: Entry)
      requires Linked() && Totals() && k < |nodes| && IsLink(prev, k) && entry == nodes[k] && tail == prev
      modifies this`head, this`tail, this`nodes, this`entries, this`count, this`bytes, repr
      ensures Linked() && Totals() && tail == prev
      ensures nodes == Without(old(nodes), k) && entries == Without(old(entries), k)
      ensures marked == old(entries)[k].(detail := Apply(old(entries)[k].detail, evidence))
    {
      Mark(entry, k, evidence);
      marked := entry.entry;
      Remove(prev, entry, k);
    }

    /** rx_context_apply on a queued record, in place. */
    method Mark(entry: Pending, ghost i: nat, evidence: Owner)
      requires Linked() && Totals() && i < |nodes| && entry == nodes[i]
      modifies this`entries, entry`entry
      ensures Linked() && Totals()
      ensures Without(entries, i) == Without(old(entries), i)
      ensures entry.entry == old(entries)[i].(detail := Apply(old(entries)[i].detail, evidence))
    {
      ghost var was := entries;
      Amend(entry, entry.entry.(detail := Apply(entry.entry.detail, evidence)), i);
      RxGateRuns.SameBytes(l, was, entries);
    }

    method InsertHead(node: Pending)
      requires Linked() && node !in repr
      modifies this`head, this`nodes, this`entries, this`repr, node`next
      ensures Linked() && nodes == With(old(nodes), 0, node)
      ensures entries == With(old(entries), 0, node.entry) && tail == old(tail)
      ensures repr == old(repr) + {node}
    {
      DistinctWith(nodes, 0, node);
      repr := repr + {node};
      node.next := head;
      head := node;
      nodes := With(nodes, 0, node);
      entries := With(entries, 0, node.entry);
    }

    method InsertAfter(prev: Pending, node: Pending, ghost k: nat)
      requires Linked() && 0 < k <= |nodes| && prev == nodes[k - 1] && node !in repr
      modifies this`head, this`nodes, this`entries, this`repr, prev`next, node`next
      ensures Linked() && nodes == With(old(nodes), k, node)
      ensures entries == With(old(entries), k, node.entry) && tail == old(tail)
      ensures repr == old(repr) + {node}
    {
      ghost var was := nodes;
      DistinctWith(was, k, node);
      assert prev.next == At(k);
      repr := repr + {node};
      node.next := prev.next;
      prev.next := node;
      nodes := With(was, k, node);
      entries := With(entries, k, node.entry);
      forall i | 0 <= i < |nodes| ensures nodes[i].next == At(i + 1) {
        if i < k - 1 {
          assert was[i] != prev;
        } else if i > k {
          assert was[i - 1] != prev;
        }
      }
    }

    /** Link a new node where `prev` leads to. */
    method Insert(prev: Pending?, node: Pending, ghost k: nat)
      requires Linked() && IsLink(prev, k) && node !in repr
      modifies this`head, this`nodes, this`entries, this`repr, repr, node`next
      ensures Linked() && nodes == With(old(nodes), k, node)
      ensures entries == With(old(entries), k, node.entry) && tail == old(tail)
      ensures repr == old(repr) + {node}
    {
      if prev == null {
        InsertHead(node);
      } else {
        InsertAfter(prev, node, k);
      }
    }

    /** Set the running totals; the chain is not concerned. */
    method Charge(newCount: nat, newBytes: nat)
      requires Linked()
      modifies this`count, this`bytes
      ensures Linked() && count == newCount && bytes == newBytes
    {
      count := newCount;
      bytes := newBytes;
    }

    method SetTail(node: Pending?)
      requires Linked()
      modifies this`tail
      ensures Linked() && tail == node && old(Totals()) == Totals()
    {
      tail := node;
    }

    /** Link a new node at the end. */
    method Append(node: Pending)
      requires Linked() && TailIsLast() && node !in repr
      modifies this`head, this`tail, this`nodes, this`entries, this`repr, repr, node`next
      ensures Linked() && TailIsLast() && nodes == With(old(nodes), |old(nodes)|, node)
      ensures entries == With(old(entries), |old(nodes)|, node.entry) && repr == old(repr) + {node}
    {
      Insert(tail, node, |nodes|);
      SetTail(node);
    }

    /** Walk to the link in front of the first entry younger than `ts`. */
    method FindLink(ts: nat) returns (prev: Pending?)
      requires Linked()
      ensures IsLink(prev, InsertPosition(entries, 0, ts))
    {
      prev := null;
      var next := head;
      ghost var i := 0;
      while next != null && next.entry.detail.ts <= ts
        invariant IsLink(prev, i) && next == At(i)
        invariant InsertPosition(entries, i, ts) == InsertPosition(entries, 0, ts)
        decreases |nodes| - i
      {
        assert next.entry == entries[i];
        prev := next;
        next := next.next;
        i := i + 1;
      }
    }

    /** Link a new node in time order: at the end when the tail is no younger, which is the usual
        case, and otherwise in front of the first younger node. */
    method LinkByTime(node: Pending)
      requires Linked() && TailIsLast() && node !in repr && RxGateRuns.StablySorted(entries)
      modifies this`head, this`tail, this`nodes, this`entries, this`repr, repr, node`next
      ensures Linked() && TailIsLast() && repr == old(repr) + {node}
      ensures entries == With(old(entries), InsertPosition(old(entries), 0, node.entry.detail.ts), node.entry)
    {
      var ts := node.entry.detail.ts;
      if tail == null || tail.entry.detail.ts <= ts {
        AppendIsInOrder(entries, ts);
        Append(node);
      } else {
        var prev := FindLink(ts);
        Insert(prev, node, InsertPosition(entries, 0, ts));
      }
    }

    /** Link a new node for a record, in time order. */
    method Enlist(entry: Entry)
      requires Linked() && TailIsLast() && RxGateRuns.StablySorted(entries)
      modifies this`head, this`tail, this`nodes, this`entries, this`repr, repr
      ensures Linked() && TailIsLast() && fresh(repr - old(repr))
      ensures entries == With(old(entries), InsertPosition(old(entries), 0, entry.detail.ts), entry)
    {
      var node := new Pending(entry);
      LinkByTime(node);
    }

    /** Quarantine one more record. */
    method Add(entry: Entry)
      requires Valid() && RxGateRuns.StablySorted(entries)
      modifies this, repr
      ensures Valid() && fresh(repr - old(repr))
      ensures entries == With(old(entries), InsertPosition(old(entries), 0, entry.detail.ts), entry)
    {
      BytesWith(l, entries, InsertPosition(entries, 0, entry.detail.ts), entry);
      Enlist(entry);
      assert |entries| == count + 1 && Bytes(l, entries) == bytes + l.Allocation(entry.size);
      Charge(count + 1, bytes + l.Allocation(entry.size));
    }

    /** Overwrite the record held by the node at `k`. */
    method Amend(node: Pending, entry: Entry, ghost k: nat)
      requires Linked() && k < |nodes| && node == nodes[k]
      modifies this`entries, node`entry
      ensures Linked() && entries == old(entries)[k := entry]
    {
      node.entry := entry;
      entries := entries[k := entry];
    }
  }
}
