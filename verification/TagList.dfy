/** The doubly linked list behind a cache set, with the links rewired in place. */
module TagList {
  import opened Basics
  import opened Links
  import opened Lru

  class MyList {
    var head: Entry?
    var tail: Entry?
    var cnt: nat
    ghost var nodes: seq<Entry>

    /** The entries from head to tail. */
    ghost predicate Valid()
      reads this, nodes
    {
      && cnt == |nodes| && Distinct(nodes) && Linked(nodes)
      && head == (if |nodes| > 0 then nodes[0] else null)
      && tail == (if |nodes| > 0 then nodes[|nodes| - 1] else null)
    }

    ghost function Contents(): (s: seq<Tag>)
      reads this, nodes
      ensures |s| == |nodes|
    {
      DataOf(nodes)
    }

    constructor ()
      ensures Valid() && nodes == []
    {
      head, tail, cnt, nodes := null, null, 0, [];
    }

    /** What PopBack makes of a list of one entry: empty, but with head pointing at the entry dropped. */
    ghost predicate Stale()
      reads this
    {
      cnt == 0 && nodes == [] && tail == null && head != null
    }

    /** Links an entry that is in no chain in front. A list with a stale head ends up with an entry and no tail, which
        no sequence of entries describes. */
    method LinkFront(e: Entry)
      requires Valid() || Stale()
      requires e !in nodes && e != head && e.next == null && e.prev == null
      modifies this, nodes, e, if head == null then {} else {head}
      ensures nodes == [e] + old(nodes) && Contents() == [old(e.data)] + old(Contents())
      ensures Valid() <==> old(Valid())
    {
      ghost var all, sound := nodes, Valid();
      ConsDistinct(e, all);
      cnt := cnt + 1;
      assert |all| > 0 ==> LinkAt(all, 0);
      hide Distinct;
      if head == null && tail == null {
        head, tail := e, e;
      } else {
        head.prev := e;
        e.next := head;
        head := e;
      }
      nodes := [e] + all;
      forall i | 0 <= i < |nodes| && sound
        ensures LinkAt(nodes, i)
      {
        if i > 0 {
          assert nodes[i] == all[i - 1] && old(LinkAt(all, i - 1));
        }
      }
    }

    method PushFront(t: Tag)
      requires Valid() || Stale()
      modifies this, nodes, if head == null then {} else {head}
      ensures Contents() == [t] + old(Contents()) && (Valid() <==> old(Valid()))
      ensures |nodes| == |old(nodes)| + 1 && fresh(nodes[0]) && nodes[1..] == old(nodes)
    {
      var e := new Entry(t);
      LinkFront(e);
    }

    /** Drops the last entry. On a single entry the source leaves head pointing at it: the list is then stale and no
        longer well formed. */
    method PopBack()
      requires Valid()
      modifies this, nodes
      ensures |old(nodes)| != 1 ==> Valid()
      ensures |old(nodes)| == 1 ==> !Valid() && Stale() && head == old(head)
      ensures nodes == if |old(nodes)| > 0 then old(nodes)[..|old(nodes)| - 1] else []
      ensures Contents() == if |old(nodes)| > 0 then old(Contents())[..|old(nodes)| - 1] else []
    {
      if tail == null {
        return;
      }
      ghost var all := nodes;
      ghost var n := |all| - 1;
      var ptr := tail;
      ptr.Unlink(all, n);
      tail := ptr.prev;
      cnt := cnt - 1;
      nodes := all[..n];
      assert Cut(all, n) == nodes;
    }

    /** The entry holding t, if any. */
    method Find(t: Tag) returns (e: Entry?, ghost k: nat)
      requires Valid()
      ensures e == null <==> t !in Contents()
      ensures e != null ==> k < |nodes| && e == nodes[k] && Contents()[k] == t
    {
      e, k := head, 0;
      while e != null
        invariant k <= |nodes| && e == (if k < |nodes| then nodes[k] else null)
        invariant t !in Contents()[..k]
        decreases |nodes| - k
      {
        assert LinkAt(nodes, k);
        if e.data == t {
          assert Contents()[k] == t;
          return;
        }
        e, k := e.next, k + 1;
      }
      assert Contents()[..k] == Contents();
    }

    /** Takes entry k out of the chain, leaving it dangling. */
    method Detach(ptr: Entry, ghost k: nat)
      requires Valid() && k < |nodes| && nodes[k] == ptr
      modifies this, nodes
      ensures Valid() && nodes == Cut(old(nodes), k) && ptr !in nodes
      ensures Contents() == Cut(old(Contents()), k) && ptr.data == old(ptr.data)
    {
      ghost var all := nodes;
      Ends(all, k);
      CutDistinct(all, k);
      hide Distinct, Linked, DataOf;
      ptr.Unlink(all, k);
      if ptr == head {
        head := ptr.next;
      }
      if ptr == tail {
        tail := ptr.prev;
      }
      cnt := cnt - 1;
      nodes := Cut(all, k);
    }

    method MoveToHead(ptr: Entry, ghost k: nat)
      requires Valid() && k < |nodes| && nodes[k] == ptr
      modifies this, nodes
      ensures Valid() && nodes == [ptr] + Cut(old(nodes), k)
      ensures Contents() == [old(Contents())[k]] + Cut(old(Contents()), k)
    {
      if cnt <= 1 {
        return;
      }
      Detach(ptr, k);
      ptr.prev, ptr.next := null, null;
      LinkFront(ptr);
    }

    method Erase(ptr: Entry, ghost k: nat)
      requires Valid() && k < |nodes| && nodes[k] == ptr
      modifies this, nodes
      ensures Valid() && nodes == Cut(old(nodes), k) && Contents() == Cut(old(Contents()), k)
    {
      Detach(ptr, k);
    }

    /** Unlinks the entries one by one from the head. */
    method Clear()
      requires Valid()
      modifies this, nodes
      ensures Valid() && nodes == [] && Contents() == []
    {
      var ptr := head;
      ghost var rest := nodes;
      while ptr != null
        modifies this`cnt, nodes
        invariant nodes == old(nodes) && cnt == |rest| && Distinct(rest) && Linked(rest)
        invariant ptr == (if |rest| > 0 then rest[0] else null)
        invariant forall e :: e in rest ==> e in nodes
        decreases |rest|
      {
        assert LinkAt(rest, 0);
        var entry := ptr;
        assert forall i :: 0 <= i < |rest| ==> rest[i] in old(nodes);
        ptr := ptr.next;
        entry.Unlink(rest, 0);
        cnt := cnt - 1;
        assert Cut(rest, 0) == rest[1..];
        rest := rest[1..];
      }
      head, tail, nodes := null, null, [];
    }
  }
}
