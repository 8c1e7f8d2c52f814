/** Doubly linked entries, and what it is for a run of them to be a chain. Both linked lists of the simulator use
    them. */
module Links {
  import opened Basics

  function NextOf(nodes: seq<Entry>, i: nat): Entry?
    requires i < |nodes|
  {
    if i + 1 < |nodes| then nodes[i + 1] else null
  }

  function PrevOf(nodes: seq<Entry>, i: nat): Entry?
    requires i < |nodes|
  {
    if i > 0 then nodes[i - 1] else null
  }

  /** Entry i is linked to its neighbours. */
  ghost predicate LinkAt(nodes: seq<Entry>, i: nat)
    requires i < |nodes|
    reads nodes[i]
  {
    nodes[i].next == NextOf(nodes, i) && nodes[i].prev == PrevOf(nodes, i)
  }

  ghost predicate Linked(nodes: seq<Entry>)
    reads nodes
  {
    forall i {:trigger LinkAt(nodes, i)} :: 0 <= i < |nodes| ==> LinkAt(nodes, i)
  }

  /** The data along a chain. */
  ghost function DataOf(nodes: seq<Entry>): (s: seq<nat>)
    reads nodes
    ensures |s| == |nodes|
  {
    seq(|nodes|, i requires 0 <= i < |nodes| reads nodes => nodes[i].data)
  }

  /** A chain without its entry k. */
  function Cut<T>(s: seq<T>, k: nat): (r: seq<T>)
    requires k < |s|
    ensures |r| == |s| - 1
  {
    s[..k] + s[k + 1..]
  }

  lemma CutDistinct(nodes: seq<Entry>, k: nat)
    requires Distinct(nodes) && k < |nodes|
    ensures Distinct(Cut(nodes, k)) && nodes[k] !in Cut(nodes, k)
  {
  }

  lemma ConsDistinct(e: Entry, nodes: seq<Entry>)
    requires Distinct(nodes) && e !in nodes
    ensures Distinct([e] + nodes)
  {
  }

  lemma Neighbours(nodes: seq<Entry>, k: nat)
    requires Distinct(nodes) && k < |nodes|
    ensures k + 1 < |nodes| ==> nodes[k + 1] != nodes[k]
    ensures k > 0 ==> nodes[k - 1] != nodes[k]
    ensures 0 < k < |nodes| - 1 ==> nodes[k - 1] != nodes[k + 1]
    ensures forall i :: 0 <= i < |nodes| && i != k - 1 && k > 0 ==> nodes[i] != nodes[k - 1]
    ensures forall i :: 0 <= i < |nodes| && i != k + 1 && k + 1 < |nodes| ==> nodes[i] != nodes[k + 1]
  {
  }

  lemma Ends(nodes: seq<Entry>, k: nat)
    requires Distinct(nodes) && k < |nodes|
    ensures nodes[0] == nodes[k] <==> k == 0
    ensures nodes[|nodes| - 1] == nodes[k] <==> k == |nodes| - 1
  {
  }

  class Entry {
    var next: Entry?
    var prev: Entry?
    var data: nat

    constructor (v: nat)
      ensures next == null && prev == null && data == v
    {
      next, prev, data := null, null, v;
    }

    /** Makes its neighbours in a chain bypass it; its own pointers stay. */
    method Unlink(ghost nodes: seq<Entry>, ghost k: nat)
      requires Distinct(nodes) && Linked(nodes) && k < |nodes| && nodes[k] == this
      modifies nodes
      ensures Linked(Cut(nodes, k)) && DataOf(Cut(nodes, k)) == Cut(old(DataOf(nodes)), k)
      ensures data == old(data)
      ensures next == old(next) == NextOf(nodes, k) && prev == old(prev) == PrevOf(nodes, k)
    {
      assert LinkAt(nodes, k);
      Neighbours(nodes, k);
      hide Distinct;
      if next != null {
        next.prev := prev;
      }
      if prev != null {
        prev.next := next;
      }
      ghost var rest := Cut(nodes, k);
      assert forall i :: 0 <= i < |nodes| ==> nodes[i].data == old(DataOf(nodes))[i];
      forall i | 0 <= i < |rest|
        ensures LinkAt(rest, i)
      {
        if i < k {
          assert rest[i] == nodes[i] && old(LinkAt(nodes, i));
        } else {
          assert rest[i] == nodes[i + 1] && old(LinkAt(nodes, i + 1));
        }
      }
    }
  }
}
