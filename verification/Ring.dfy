/** The ring behind the reorder buffer and the fetch queues: indices run modulo twice the length, so that a full ring
    and an empty one differ. */
module Ring {
  import opened Basics
  import opened Powers

  lemma RemSmall(x: nat, m: nat)
    requires 0 < m && x < 2 * m
    ensures Rem(x, m) == if x < m then x else x - m
  {
    QuotientUnique(x, m, if x < m then 0 else 1, if x < m then x else x - m);
  }

  /** Entries between two indices. */
  function Span(read: nat, write: nat, len: nat): int {
    if write >= read then write - read else write + 2 * len - read
  }

  /** The slot of the entry i places after the read index: masking an index is taking it modulo the length. */
  function Slot(read: nat, i: nat, len: nat): (k: nat)
    requires len > 0
    ensures k < len
  {
    Rem(Rem(read + i, 2 * len), len)
  }

  lemma SlotFlat(read: nat, i: nat, len: nat)
    requires read < 2 * len && i <= len && len > 0
    ensures Slot(read, i, len) ==
            if read + i < len then read + i else if read + i < 2 * len then read + i - len else read + i - 2 * len
  {
    RemSmall(read + i, 2 * len);
    RemSmall(if read + i < 2 * len then read + i else read + i - 2 * len, len);
  }

  /** Fewer than a ring's length apart, different entries have different slots. */
  lemma SlotsDiffer(read: nat, i: nat, j: nat, len: nat)
    requires read < 2 * len && i < j < len
    ensures Slot(read, i, len) != Slot(read, j, len)
  {
    SlotFlat(read, i, len);
    SlotFlat(read, j, len);
  }

  lemma SlotShift(read: nat, i: nat, len: nat)
    requires read < 2 * len && i < len
    ensures Slot(Rem(read + 1, 2 * len), i, len) == Slot(read, i + 1, len)
  {
    RemSmall(read + 1, 2 * len);
    SlotFlat(read, i + 1, len);
    SlotFlat(Rem(read + 1, 2 * len), i, len);
  }

  /** One slot down, wrapping below zero. */
  lemma SlotBefore(read: nat, i: nat, len: nat)
    requires read < 2 * len && 0 < i <= len
    ensures var s := Slot(read, i, len);
            Slot(read, i - 1, len) == if s == 0 then len - 1 else s - 1
  {
    hide Slot, Rem;
    SlotFlat(read, i, len);
    SlotFlat(read, i - 1, len);
  }

  /** Every slot is that of some entry. */
  lemma SlotHit(read: nat, s: nat, len: nat) returns (i: nat)
    requires read < 2 * len && s < len
    ensures i < len && Slot(read, i, len) == s
  {
    hide Slot, Rem;
    var r := if read < len then read else read - len;
    i := if s >= r then s - r else s + len - r;
    SlotFlat(read, i, len);
  }

  function Filled<T>(contents: seq<T>): (r: seq<Option<T>>)
    ensures |r| == |contents|
  {
    seq(|contents|, i requires 0 <= i < |contents| => Some(contents[i]))
  }

  /** How often a function says yes along a sequence. */
  function Yeses<T>(o: T -> bool, s: seq<T>): nat {
    if s == [] then 0 else Yeses(o, s[..|s| - 1]) + (if o(s[|s| - 1]) then 1 else 0)
  }

  lemma YesesAppend<T>(o: T -> bool, s: seq<T>, v: T)
    ensures Yeses(o, s + [v]) == Yeses(o, s) + (if o(v) then 1 else 0)
  {
    assert (s + [v])[..|s|] == s;
  }

  class SimQueue<T(!new)> {
    const len: nat
    const data: array<Option<T>>
    var readIdx: nat
    var writeIdx: nat
    ghost var contents: seq<T>

    ghost predicate Valid()
      reads this, data
    {
      && data.Length == len && (exists n :: len == Pow2(n))
      && readIdx < 2 * len && writeIdx < 2 * len
      && |contents| == Span(readIdx, writeIdx, len) <= len
      && (forall i {:trigger Holds(i)} :: 0 <= i < len ==> Holds(i))
    }

    /** The slot i places after the read index holds entry i, or nothing past the last entry. */
    ghost predicate Holds(i: nat)
      requires 0 < len == data.Length
      reads this, data
    {
      data[Slot(readIdx, i, len)] == if i < |contents| then Some(contents[i]) else None
    }

    constructor (n: nat)
      ensures Valid() && contents == [] && len == Pow2(n) && fresh(data)
    {
      len := Pow2(n);
      data := new Option<T>[Pow2(n)](_ => None);
      readIdx, writeIdx, contents := 0, 0, [];
    }

    predicate Empty()
      requires Valid()
      reads this, data
      ensures Empty() <==> contents == []
    {
      readIdx == writeIdx
    }

    predicate Full()
      requires Valid()
      reads this, data
      ensures Full() <==> |contents| == len
    {
      RemSmall(readIdx, len);
      RemSmall(writeIdx, len);
      Rem(readIdx, len) == Rem(writeIdx, len) && readIdx != writeIdx
    }

    /** What size() returns is the number of entries exactly when the write index is past the read index. */
    function Size(): (n: int)
      requires Valid()
      reads this, data
      ensures n == |contents| <==> writeIdx > readIdx
    {
      if writeIdx > readIdx then writeIdx - readIdx else 2 * len - writeIdx + readIdx
    }

    method Push(v: T) returns (slot: nat)
      requires Valid() && !Full()
      modifies this`writeIdx, this`contents, data
      ensures Valid() && contents == old(contents) + [v]
      ensures slot < data.Length && data[slot] == Some(v) && old(data[slot]) == None
    {
      ghost var n := |contents|;
      hide Slot, Rem;
      SlotFlat(readIdx, n, len);
      RemSmall(writeIdx, len);
      RemSmall(writeIdx + 1, 2 * len);
      assert Holds(n);
      slot := Rem(writeIdx, len);
      assert slot == Slot(readIdx, n, len);
      data[slot] := Some(v);
      writeIdx := Rem(writeIdx + 1, 2 * len);
      contents := contents + [v];
      forall i | 0 <= i < len
        ensures Holds(i)
      {
        assert old(Holds(i));
        if i < n {
          SlotsDiffer(readIdx, i, n, len);
        } else if i > n {
          SlotsDiffer(readIdx, n, i, len);
        }
      }
    }

    method Pop() returns (v: Option<T>)
      requires Valid() && !Empty()
      modifies this`readIdx, this`contents, data
      ensures Valid() && v == Some(old(contents)[0]) && contents == old(contents)[1..]
    {
      hide Slot, Rem;
      SlotFlat(readIdx, 0, len);
      RemSmall(readIdx, len);
      RemSmall(readIdx + 1, 2 * len);
      assert Holds(0);
      ghost var r, all := readIdx, contents;
      var slot := Rem(readIdx, len);
      v := data[slot];
      data[slot] := None;
      readIdx := Rem(readIdx + 1, 2 * len);
      contents := contents[1..];
      forall i | 0 <= i < len
        ensures Holds(i)
      {
        SlotShift(r, i, len);
        if i + 1 < len {
          assert old(Holds(i + 1));
          SlotsDiffer(r, 0, i + 1, len);
        } else {
          SlotFlat(r, len, len);
        }
      }
    }

    method Peek() returns (v: Option<T>)
      requires Valid() && !Empty()
      ensures v == Some(contents[0])
    {
      hide Slot, Rem;
      SlotFlat(readIdx, 0, len);
      RemSmall(readIdx, len);
      assert Holds(0);
      v := data[Rem(readIdx, len)];
    }

    /** The entry behind the next one to be popped: none exactly when fewer than two are queued, in a ring of length
        two or more. In a ring of length one it is the head itself. */
    method PeekNextPop() returns (v: Option<T>)
      requires Valid()
      ensures len >= 2 ==> v == if |contents| >= 2 then Some(contents[1]) else None
      ensures len == 1 ==> v == if |contents| == 1 then Some(contents[0]) else None
    {
      hide Slot, Rem;
      var nextRd := Rem(readIdx + 1, 2 * len);
      SlotShift(readIdx, 0, len);
      SlotFlat(readIdx, 1, len);
      SlotFlat(readIdx, 0, len);
      assert Holds(0);
      if len >= 2 {
        assert Holds(1);
      }
      RemSmall(readIdx + 1, 2 * len);
      RemSmall(nextRd, len);
      v := data[Rem(nextRd, len)];
    }

    /** What lies k places after the read index, for k up to the number of entries. */
    ghost function EntryAt(k: nat): Option<T>
      reads this
    {
      if k < |contents| then Some(contents[k]) else None
    }

    /** Where the walk starts: at the youngest entry of a full ring, else at the empty slot past it. */
    method Top() returns (i: nat, ghost top: nat)
      requires Valid()
      ensures top == (if |contents| == len then len - 1 else |contents|)
      ensures i == Slot(readIdx, top, len)
    {
      hide Slot, Rem;
      top := if |contents| == len then len - 1 else |contents|;
      var start := if !Full() then writeIdx else if writeIdx == 0 then 2 * len - 1 else writeIdx - 1;
      RemSmall(start, len);
      SlotFlat(readIdx, top, len);
      i := Rem(start, len);
    }

    /** One turn of the walk: the value at place k is handed out and its slot emptied. */
    method Take(i: nat, ghost k: nat, ghost top: nat) returns (v: Option<T>)
      requires data.Length == len && readIdx < 2 * len && k <= top < len && i == Slot(readIdx, k, len)
      requires forall m {:trigger Slot(readIdx, m, len)} :: 0 <= m <= k ==> data[Slot(readIdx, m, len)] == EntryAt(m)
      requires forall m {:trigger Slot(readIdx, m, len)} :: k < m < len ==> data[Slot(readIdx, m, len)] == None
      modifies data
      ensures v == EntryAt(k)
      ensures forall m {:trigger Slot(readIdx, m, len)} :: 0 <= m < k ==> data[Slot(readIdx, m, len)] == EntryAt(m)
      ensures forall m {:trigger Slot(readIdx, m, len)} :: k <= m < len ==> data[Slot(readIdx, m, len)] == None
    {
      hide Slot;
      v := data[i];
      data[i] := None;
      forall m | 0 <= m < len && m != k
        ensures Slot(readIdx, m, len) != i
      {
        if m < k {
          SlotsDiffer(readIdx, m, k, len);
        } else {
          SlotsDiffer(readIdx, k, m, len);
        }
      }
    }

    /** The places from the top down to 0 are the entries backwards, after the empty slot if there is one. */
    lemma WholeWalk(visited: seq<Option<T>>, top: nat)
      requires |contents| <= len && top == (if |contents| == len then len - 1 else |contents|) && len > 0
      requires |visited| == top + 1 && forall m :: 0 <= m <= top ==> visited[m] == EntryAt(top - m)
      ensures visited == (if |contents| == len then [] else [None]) + Reversed(Filled(contents))
    {
    }

    lemma AllEmptied()
      requires data.Length == len && (exists n :: len == Pow2(n)) && readIdx < 2 * len && writeIdx < 2 * len
      requires |contents| == Span(readIdx, writeIdx, len) <= len
      requires forall m {:trigger Slot(readIdx, m, len)} :: 0 <= m < len ==> data[Slot(readIdx, m, len)] == None
      ensures forall s :: 0 <= s < len ==> data[s] == None
      ensures Valid() <==> contents == []
    {
      hide Slot;
      forall s | 0 <= s < len
        ensures data[s] == None
      {
        var m := SlotHit(readIdx, s, len);
      }
      if |contents| > 0 {
        assert !Holds(0);
      } else {
        assert forall m :: 0 <= m < len ==> Holds(m);
      }
    }

    /** Applies o to the entries from youngest to oldest, each once, and empties their slots. Unless the ring is full
        the walk starts on the empty slot past the youngest. The indices stay, so only an empty ring is well formed
        afterwards. */
    method TraverseAndApply(o: Option<T> -> bool) returns (c: nat, ghost visited: seq<Option<T>>)
      requires Valid()
      modifies data
      ensures visited == (if |contents| == len then [] else [None]) + Reversed(Filled(contents))
      ensures c == Yeses(o, visited)
      ensures forall s :: 0 <= s < len ==> data[s] == None
      ensures Valid() <==> contents == []
    {
      hide Slot, Rem;
      ghost var n := |contents|;
      var i, top := Top();
      SlotFlat(readIdx, 0, len);
      RemSmall(readIdx, len);
      var d := Rem(readIdx, len);
      c, visited := 0, [];
      ghost var k: nat := top;
      forall m {:trigger Slot(readIdx, m, len)} | 0 <= m < len
        ensures data[Slot(readIdx, m, len)] == EntryAt(m)
      {
        assert Holds(m);
      }
      while true
        invariant k <= top < len && i == Slot(readIdx, k, len) && n == |contents|
        invariant |visited| == top - k && forall m :: 0 <= m < top - k ==> visited[m] == EntryAt(top - m)
        invariant c == Yeses(o, visited)
        invariant forall m {:trigger Slot(readIdx, m, len)} :: 0 <= m <= k ==> data[Slot(readIdx, m, len)] == EntryAt(m)
        invariant forall m {:trigger Slot(readIdx, m, len)} :: k < m < len ==> data[Slot(readIdx, m, len)] == None
        decreases k
      {
        var v := Take(i, k, top);
        YesesAppend(o, visited, v);
        c := c + if o(v) then 1 else 0;
        visited := visited + [v];
        if k > 0 {
          SlotsDiffer(readIdx, 0, k, len);
          SlotBefore(readIdx, k, len);
        }
        if i == d {
          break;
        }
        i := if i == 0 then len - 1 else i - 1;
        k := k - 1;
      }
      WholeWalk(visited, top);
      AllEmptied();
    }

    method Clear()
      requires Valid()
      modifies this`readIdx, this`writeIdx, this`contents, data
      ensures Valid() && contents == []
    {
      forall k | 0 <= k < data.Length {
        data[k] := None;
      }
      readIdx, writeIdx, contents := 0, 0, [];
    }
  }
}
