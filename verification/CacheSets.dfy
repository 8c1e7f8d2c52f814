/** A cache set: access, flush of one line and clear over the linked list, counting in the counters of its level. */
module CacheSets {
  import opened Basics
  import opened Links
  import opened Lru
  import opened TagList

  /** The counters of one cache level, shared by all its sets. */
  class Counters {
    var hits: nat
    var misses: nat
    var readHits: nat
    var readMisses: nat
    var writeHits: nat
    var writeMisses: nat

    ghost predicate Valid()
      reads this
    {
      hits == readHits + writeHits && misses == readMisses + writeMisses
    }

    constructor ()
      ensures Valid() && readHits == readMisses == writeHits == writeMisses == 0
    {
      hits, misses, readHits, readMisses, writeHits, writeMisses := 0, 0, 0, 0, 0, 0;
    }

    method Count(hit: bool, write: bool)
      requires Valid()
      modifies this
      ensures Valid()
      ensures readHits == old(readHits) + (if hit && !write then 1 else 0)
      ensures writeHits == old(writeHits) + (if hit && write then 1 else 0)
      ensures readMisses == old(readMisses) + (if !hit && !write then 1 else 0)
      ensures writeMisses == old(writeMisses) + (if !hit && write then 1 else 0)
    {
      if hit {
        if write {
          writeHits := writeHits + 1;
        } else {
          readHits := readHits + 1;
        }
        hits := hits + 1;
      } else {
        if write {
          writeMisses := writeMisses + 1;
        } else {
          readMisses := readMisses + 1;
        }
        misses := misses + 1;
      }
    }
  }

  class CacheSet {
    const assoc: nat
    const entries: MyList
    const counters: Counters
    ghost var Repr: set<object>

    ghost predicate Valid()
      reads this, Repr
    {
      && this in Repr && entries in Repr && counters !in Repr
      && (forall i :: 0 <= i < |entries.nodes| ==> entries.nodes[i] in Repr)
      && assoc >= 1 && entries.Valid() && Distinct(entries.Contents()) && |entries.Contents()| <= assoc
    }

    ghost function Tags(): seq<Tag>
      requires Valid()
      reads this, Repr
    {
      entries.Contents()
    }

    constructor (assoc: nat, counters: Counters)
      requires assoc >= 1
      ensures Valid() && this.assoc == assoc && this.counters == counters && Tags() == [] && fresh(Repr)
    {
      this.assoc, this.counters := assoc, counters;
      entries := new MyList();
      Repr := {this, entries};
    }

    /** The set stays well formed exactly if it does not have to drop its only entry, which breaks the list. */
    method Access(tag: Tag, write: bool) returns (hit: bool)
      requires Valid() && counters.Valid()
      modifies Repr, counters
      ensures counters.Valid() && old(Repr) <= Repr && fresh(Repr - old(Repr))
      ensures hit <==> tag in old(Tags())
      ensures Valid() <==> assoc >= 2 || hit || old(Tags()) == []
      ensures Valid() ==> Tags() == Touch(assoc, old(Tags()), tag)
      ensures counters.readHits == old(counters.readHits) + (if hit && !write then 1 else 0)
      ensures counters.writeHits == old(counters.writeHits) + (if hit && write then 1 else 0)
      ensures counters.readMisses == old(counters.readMisses) + (if !hit && !write then 1 else 0)
      ensures counters.writeMisses == old(counters.writeMisses) + (if !hit && write then 1 else 0)
    {
      hide Without, Distinct, DataOf, Linked, Touch;
      var it, k := entries.Find(tag);
      hit := it != null;
      counters.Count(hit, write);
      if hit {
        Promote(it, k);
      } else {
        Insert(tag);
      }
    }

    method Promote(it: Entry, ghost k: nat)
      requires Valid() && k < |entries.nodes| && it == entries.nodes[k]
      modifies Repr
      ensures Valid() && Repr == old(Repr) && Tags() == Touch(assoc, old(Tags()), old(Tags())[k])
    {
      hide Without, Distinct, Cut, DataOf, Linked;
      TouchKeeps(assoc, Tags(), Tags()[k]);
      WithoutAt(Tags(), k);
      MovedInside(entries.nodes, k);
      entries.MoveToHead(it, k);
    }

    method Insert(tag: Tag)
      requires Valid() && tag !in Tags()
      modifies Repr
      ensures old(Repr) <= Repr && fresh(Repr - old(Repr))
      ensures Valid() <==> assoc >= 2 || old(Tags()) == []
      ensures Valid() ==> Tags() == Touch(assoc, old(Tags()), tag)
    {
      TouchKeeps(assoc, Tags(), tag);
      hide Without, Distinct, Cut, DataOf, Linked;
      if entries.cnt == assoc {
        entries.PopBack();
      }
      entries.PushFront(tag);
      Repr := Repr + {entries.nodes[0]};
    }

    lemma MovedInside(nodes: seq<Entry>, k: nat)
      requires k < |nodes|
      ensures forall i :: 0 <= i < |nodes| ==> ([nodes[k]] + Cut(nodes, k))[i] in nodes
    {
    }

    method FlushLine(tag: Tag)
      requires Valid()
      modifies Repr
      ensures Valid() && old(Repr) <= Repr && fresh(Repr - old(Repr)) && Tags() == Without(old(Tags()), tag)
    {
      ghost var list := Tags();
      WithoutDistinct(list, tag);
      var it, k := entries.Find(tag);
      if it != null {
        WithoutAt(list, k);
        entries.Erase(it, k);
      }
    }

    method Clear()
      requires Valid()
      modifies Repr
      ensures Valid() && old(Repr) <= Repr && fresh(Repr - old(Repr)) && Tags() == []
    {
      entries.Clear();
    }
  }
}
