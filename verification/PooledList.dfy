/** The pooled list used for the reservation stations and the memory operations in flight. An operation is its address;
    0 is the null pointer. */
module PooledList {
  import opened Basics
  import opened Links

  /** The free entries and the live ones are all different and are together all the entries there are. */
  ghost predicate Partition(free: seq<Entry>, live: seq<Entry>, all: seq<Entry>) {
    && Distinct(free) && Distinct(live)
    && (forall e :: e in live ==> e !in free)
    && (forall e :: e in all ==> e in free || e in live)
    && (forall e :: e in free ==> e in all)
    && (forall e :: e in live ==> e in all)
  }

  lemma AppendDistinct(s: seq<Entry>, e: Entry)
    requires Distinct(s) && e !in s
    ensures Distinct(s + [e])
  {
  }

  /** Taking the last free entry to the end of the live ones. */
  lemma PartitionTake(free: seq<Entry>, live: seq<Entry>, all: seq<Entry>)
    requires |free| > 0 && Partition(free, live, all)
    ensures Partition(free[..|free| - 1], live + [free[|free| - 1]], all)
  {
    var e := free[|free| - 1];
    assert free == free[..|free| - 1] + [e];
    assert e in free && e !in live;
  }

  /** Giving back live entry k. */
  lemma PartitionGive(free: seq<Entry>, live: seq<Entry>, all: seq<Entry>, k: nat)
    requires k < |live| && Partition(free, live, all)
    ensures Partition(free + [live[k]], Cut(live, k), all)
  {
    CutDistinct(live, k);
    var e := live[k];
    assert live == live[..k] + [e] + live[k + 1..];
    assert e in live && e !in free;
  }

  function Kept(s: seq<nat>, p: nat -> bool): (r: seq<nat>) {
    if s == [] then [] else if p(s[|s| - 1]) then Kept(s[..|s| - 1], p) else Kept(s[..|s| - 1], p) + [s[|s| - 1]]
  }

  lemma KeptStep(s: seq<nat>, v: nat, p: nat -> bool)
    ensures Kept(s + [v], p) == if p(v) then Kept(s, p) else Kept(s, p) + [v]
  {
    assert (s + [v])[..|s|] == s;
  }

  /** A walk under way: the visited part of the old contents, of which kept is left, and the rest, still all there. */
  ghost predicate Split(all: seq<nat>, visited: seq<nat>, kept: seq<nat>, now: seq<nat>, k: nat) {
    visited <= all && k == |kept| && now == kept + all[|visited|..]
  }

  lemma SplitStart(all: seq<nat>, p: nat -> bool)
    ensures Split(all, [], Kept([], p), all, 0)
  {
  }

  lemma SplitDone(all: seq<nat>, visited: seq<nat>, kept: seq<nat>, now: seq<nat>, k: nat)
    requires Split(all, visited, kept, now, k) && k == |now|
    ensures visited == all && now == kept
  {
  }

  lemma CutInside(nodes: seq<Entry>, k: nat)
    requires k < |nodes|
    ensures forall i :: 0 <= i < |nodes| - 1 ==> Cut(nodes, k)[i] in nodes
  {
  }

  lemma SplitStep(all: seq<nat>, visited: seq<nat>, kept: seq<nat>, now: seq<nat>, k: nat)
    requires Split(all, visited, kept, now, k) && k < |now|
    ensures Split(all, visited + [now[k]], kept, Cut(now, k), k)
    ensures Split(all, visited + [now[k]], kept + [now[k]], now, k + 1)
  {
    assert now[k] == all[|visited|];
    assert now[k + 1..] == all[|visited| + 1..];
    assert kept + [now[k]] + all[|visited| + 1..] == now;
  }

  class SimList {
    const numEntries: nat
    const pool: array<Entry>
    const entries: array<Entry>
    var poolIdx: int
    var head: Entry?
    var tail: Entry?
    var cnt: nat
    ghost var nodes: seq<Entry>

    /** The live entries run from tail to head along the next pointers, which is the order they were pushed in. */
    ghost predicate Chained()
      reads this, nodes
    {
      && cnt == |nodes| && Distinct(nodes) && Linked(nodes)
      && tail == (if |nodes| > 0 then nodes[0] else null)
      && head == (if |nodes| > 0 then nodes[|nodes| - 1] else null)
    }

    ghost predicate Valid()
      reads this, pool, entries, nodes
    {
      && pool.Length == entries.Length == numEntries && pool != entries
      && -1 <= poolIdx < numEntries && poolIdx + 1 + cnt == numEntries
      && Distinct(entries[..])
      && Partition(pool[..poolIdx + 1], nodes, entries[..])
      && Chained()
    }

    ghost function Contents(): (s: seq<nat>)
      reads this, nodes
      ensures |s| == |nodes|
    {
      DataOf(nodes)
    }

    constructor (numEntries: nat)
      ensures Valid() && this.numEntries == numEntries && Contents() == []
      ensures fresh(pool) && fresh(entries) && forall e :: e in entries[..] ==> fresh(e)
    {
      this.numEntries := numEntries;
      var first := new Entry(0);
      pool := new Entry[numEntries](_ => first);
      entries := new Entry[numEntries](_ => first);
      poolIdx := numEntries - 1;
      head, tail, cnt, nodes := null, null, 0, [];
      new;
      assert Distinct(pool[..0]);
      hide Distinct;
      var i := 0;
      while i < numEntries
        modifies pool, entries
        invariant i <= numEntries
        invariant pool[..i] == entries[..i] && Distinct(pool[..i])
        invariant forall k :: 0 <= k < i ==> fresh(entries[k])
      {
        var e := new Entry(0);
        AppendDistinct(pool[..i], e);
        pool[i], entries[i] := e, e;
        assert pool[..i + 1] == pool[..i] + [e] && entries[..i + 1] == entries[..i] + [e];
        i := i + 1;
      }
      assert pool[..] == pool[..numEntries] == entries[..numEntries] == entries[..];
    }

    predicate Full()
      requires Valid()
      reads this, pool, entries, nodes
      ensures Full() <==> |Contents()| == numEntries
      ensures Full() <==> poolIdx == -1
    {
      cnt == numEntries
    }

    method Alloc(v: nat) returns (e: Entry)
      requires Valid() && !Full()
      modifies this`poolIdx, pool[poolIdx]
      ensures poolIdx == old(poolIdx) - 1 && e == pool[old(poolIdx)]
      ensures e.next == null && e.prev == null && e.data == v
    {
      e := pool[poolIdx];
      poolIdx := poolIdx - 1;
      e.next, e.prev, e.data := null, null, v;
    }

    method Dealloc(e: Entry)
      requires pool.Length == numEntries && -1 <= poolIdx < numEntries - 1
      modifies this`poolIdx, pool
      ensures poolIdx == old(poolIdx) + 1 && pool[..poolIdx + 1] == old(pool[..poolIdx + 1]) + [e]
    {
      poolIdx := poolIdx + 1;
      pool[poolIdx] := e;
    }

    method Append(e: Entry)
      requires Chained() && e !in nodes && e.next == null && e.prev == null
      modifies this`head, this`tail, this`cnt, this`nodes, nodes, e
      ensures Chained() && nodes == old(nodes) + [e] && Contents() == old(Contents()) + [old(e.data)]
    {
      ghost var all := nodes;
      cnt := cnt + 1;
      if head == null && tail == null {
        head, tail := e, e;
      } else {
        head.next := e;
        e.prev := head;
        head := e;
      }
      nodes := all + [e];
      forall i | 0 <= i < |nodes|
        ensures LinkAt(nodes, i)
      {
        if i < |all| {
          assert old(LinkAt(all, i));
        }
      }
    }

    method Unchain(ptr: Entry, ghost k: nat)
      requires Chained() && k < |nodes| && nodes[k] == ptr
      modifies this`head, this`tail, this`cnt, this`nodes, nodes
      ensures Chained() && nodes == Cut(old(nodes), k) && Contents() == Cut(old(Contents()), k)
    {
      ghost var all := nodes;
      Ends(all, k);
      CutDistinct(all, k);
      hide Distinct, Linked, DataOf;
      ptr.Unlink(all, k);
      if ptr == head {
        head := ptr.prev;
      }
      if ptr == tail {
        tail := ptr.next;
      }
      cnt := cnt - 1;
      nodes := Cut(all, k);
    }

    /** Adds at the head. */
    method Push(v: nat)
      requires Valid() && !Full() && v != 0
      modifies this, nodes, pool[poolIdx]
      ensures Valid() && Contents() == old(Contents()) + [v]
    {
      ghost var free := pool[..poolIdx + 1];
      PartitionTake(free, nodes, entries[..]);
      assert free[poolIdx] in free;
      assert pool[poolIdx] !in nodes;
      var e := Alloc(v);
      assert Chained() by {
        assert forall i :: 0 <= i < |nodes| ==> old(LinkAt(nodes, i));
      }
      assert Contents() == old(Contents());
      hide Partition, Distinct, Linked, DataOf;
      Append(e);
      assert pool[..poolIdx + 1] == free[..|free| - 1];
    }

    /** Takes entry k out of the chain and gives it back to the pool. */
    method Remove(ptr: Entry, ghost k: nat)
      requires Valid() && k < |nodes| && nodes[k] == ptr
      modifies this, pool, nodes
      ensures Valid() && nodes == Cut(old(nodes), k) && Contents() == Cut(old(Contents()), k)
    {
      PartitionGive(pool[..poolIdx + 1], nodes, entries[..], k);
      hide Partition, Distinct, Linked, DataOf;
      Unchain(ptr, k);
      Dealloc(ptr);
    }

    /** Takes the oldest from the tail. */
    method Pop() returns (v: nat)
      requires Valid() && |Contents()| > 0
      modifies this, pool, nodes
      ensures Valid() && v == old(Contents())[0] && Contents() == old(Contents())[1..]
    {
      v := tail.data;
      Remove(tail, 0);
      assert Cut(old(Contents()), 0) == old(Contents())[1..];
    }

    /** Removes the entry the iterator stands on and returns the next one; removing at the end does nothing. */
    method Erase(ptr: Entry?, ghost k: nat) returns (next: Entry?)
      requires Valid() && k <= |nodes| && ptr == (if k < |nodes| then nodes[k] else null)
      modifies this, pool, nodes
      ensures Valid() && next == (if k < |nodes| then nodes[k] else null)
      ensures nodes == if ptr == null then old(nodes) else Cut(old(nodes), k)
      ensures Contents() == if ptr == null then old(Contents()) else Cut(old(Contents()), k)
    {
      if ptr == null {
        return null;
      }
      assert LinkAt(nodes, k);
      next := ptr.next;
      Remove(ptr, k);
    }

    /** The iterator at the tail; at the end it is null. */
    method Begin() returns (it: Entry?)
      requires Valid()
      ensures it == (if |nodes| > 0 then nodes[0] else null)
    {
      it := tail;
    }

    method Get(it: Entry, ghost k: nat) returns (v: nat)
      requires Valid() && k < |nodes| && it == nodes[k]
      ensures v == Contents()[k]
    {
      v := it.data;
    }

    method Next(it: Entry, ghost k: nat) returns (next: Entry?)
      requires Valid() && k < |nodes| && it == nodes[k]
      ensures next == (if k + 1 < |nodes| then nodes[k + 1] else null)
    {
      assert LinkAt(nodes, k);
      next := it.next;
    }

    /** Walks from the tail and erases what meets the test: the walk meets every element once, in the order they were
        pushed, and those that stay keep their order. */
    method EraseWhere(p: nat -> bool) returns (visited: seq<nat>)
      requires Valid()
      modifies this, pool, nodes
      ensures Valid() && visited == old(Contents()) && Contents() == Kept(old(Contents()), p)
    {
      hide *;
      var it := Begin();
      ghost var all := Contents();
      ghost var k := 0;
      visited := [];
      SplitStart(all, p);
      while it != null
        invariant Valid() && k <= |nodes| && it == (if k < |nodes| then nodes[k] else null)
        invariant forall i :: 0 <= i < |nodes| ==> nodes[i] in old(nodes)
        invariant Split(all, visited, Kept(visited, p), Contents(), k)
        decreases |nodes| - k
      {
        var v := Get(it, k);
        KeptStep(visited, v, p);
        SplitStep(all, visited, Kept(visited, p), Contents(), k);
        if p(v) {
          CutInside(nodes, k);
          it := Erase(it, k);
        } else {
          it := Next(it, k);
          k := k + 1;
        }
        visited := visited + [v];
      }
      SplitDone(all, visited, Kept(visited, p), Contents(), k);
    }

    /** Forgets everything; the pool is the entries again. */
    method Clear()
      requires Valid()
      modifies this, pool, entries[..]
      ensures Valid() && Contents() == [] && pool[..] == entries[..]
    {
      head, tail, cnt, nodes := null, null, 0, [];
      poolIdx := numEntries - 1;
      var i := 0;
      while i < numEntries
        modifies pool, entries[..]
        invariant i <= numEntries && pool[..i] == entries[..i]
      {
        pool[i] := entries[i];
        assert entries[i] in entries[..];
        pool[i].data := 0;
        i := i + 1;
      }
      assert pool[..poolIdx + 1] == pool[..numEntries] == entries[..numEntries] == entries[..];
    }
  }
}
