/** One set of the set-associative cache: a list of tags in recency order. */
module Lru {
  import opened Basics
  import opened Links

  type Tag = nat

  datatype Request = Access(tag: Tag) | FlushLine(tag: Tag) | Clear

  function Without(list: seq<Tag>, t: Tag): (r: seq<Tag>)
    ensures t !in r && forall x :: x in r <==> x in list && x != t
    ensures |r| <= |list| && (t !in list ==> r == list)
  {
    if list == [] then [] else if list[0] == t then Without(list[1..], t) else [list[0]] + Without(list[1..], t)
  }

  /** A hit moves the tag to the front; a miss on a full set drops the last tag and puts the new one in front. */
  function Touch(assoc: nat, list: seq<Tag>, t: Tag): seq<Tag> {
    if t in list then [t] + Without(list, t)
    else if |list| == assoc && |list| > 0 then [t] + list[..|list| - 1]
    else [t] + list
  }

  function Serve(assoc: nat, list: seq<Tag>, r: Request): seq<Tag> {
    match r
    case Access(t) => Touch(assoc, list, t)
    case FlushLine(t) => Without(list, t)
    case Clear => []
  }

  /** The set after a trace of requests. */
  function After(assoc: nat, trace: seq<Request>): seq<Tag> {
    if trace == [] then [] else Serve(assoc, After(assoc, trace[..|trace| - 1]), trace[|trace| - 1])
  }

  lemma CutRest(list: seq<Tag>, k: nat)
    requires 0 < k < |list|
    ensures [list[0]] + Cut(list[1..], k - 1) == Cut(list, k)
  {
  }

  lemma DistinctRest(list: seq<Tag>)
    requires Distinct(list) && list != []
    ensures Distinct(list[1..]) && list[0] !in list[1..]
  {
  }

  lemma {:induction false} WithoutAt(list: seq<Tag>, k: nat)
    requires Distinct(list) && k < |list|
    ensures Without(list, list[k]) == Cut(list, k)
  {
    DistinctRest(list);
    if k == 0 {
      hide Distinct;
    } else {
      hide Distinct, Cut;
      WithoutAt(list[1..], k - 1);
      CutRest(list, k);
      assert list[k] in list[1..];
    }
  }

  lemma CutKeepsDistinct(list: seq<Tag>, k: nat)
    requires Distinct(list) && k < |list|
    ensures Distinct(Cut(list, k))
  {
  }

  lemma WithoutDistinct(list: seq<Tag>, t: Tag)
    requires Distinct(list)
    ensures Distinct(Without(list, t))
    ensures t in list ==> |Without(list, t)| == |list| - 1
  {
    hide Without, Distinct;
    if t in list {
      var k :| 0 <= k < |list| && list[k] == t;
      WithoutAt(list, k);
      CutKeepsDistinct(list, k);
    }
  }

  lemma TouchKeeps(assoc: nat, list: seq<Tag>, t: Tag)
    requires assoc > 0 && Distinct(list) && |list| <= assoc
    ensures Distinct(Touch(assoc, list, t)) && |Touch(assoc, list, t)| <= assoc
  {
    WithoutDistinct(list, t);
    hide Without;
  }

  lemma {:induction false} AfterKeeps(assoc: nat, trace: seq<Request>)
    requires assoc > 0
    ensures Distinct(After(assoc, trace)) && |After(assoc, trace)| <= assoc
  {
    if trace != [] {
      var init := trace[..|trace| - 1];
      AfterKeeps(assoc, init);
      match trace[|trace| - 1]
      case Access(t) => TouchKeeps(assoc, After(assoc, init), t);
      case FlushLine(t) => WithoutDistinct(After(assoc, init), t);
      case Clear =>
    }
  }

  lemma AfterLast(assoc: nat, trace: seq<Request>, r: Request)
    ensures After(assoc, trace + [r]) == Serve(assoc, After(assoc, trace), r)
  {
    assert (trace + [r])[..|trace|] == trace;
  }

  /** A tag that is not held stays out until it is accessed. */
  lemma {:induction false} StaysOut(assoc: nat, trace: seq<Request>, t: Tag, more: seq<Request>)
    requires t !in After(assoc, trace) && Access(t) !in more
    ensures t !in After(assoc, trace + more)
    decreases |more|
  {
    if more == [] {
      assert trace + [] == trace;
    } else {
      hide After, Touch;
      var init, r := more[..|more| - 1], more[|more| - 1];
      assert more == init + [r];
      StaysOut(assoc, trace, t, init);
      assert trace + more == trace + init + [r];
      AfterLast(assoc, trace + init, r);
      if r.Access? {
        TouchAdds(assoc, After(assoc, trace + init), r.tag);
      }
    }
  }

  lemma TouchAdds(assoc: nat, list: seq<Tag>, t: Tag)
    ensures forall x :: x in Touch(assoc, list, t) ==> x == t || x in list
  {
  }

  /** Until it is accessed again a flushed tag is not held; the flush forgets no other tag, and a clear forgets all. */
  lemma FlushForgets(assoc: nat, trace: seq<Request>, t: Tag, more: seq<Request>)
    requires Access(t) !in more
    ensures t !in After(assoc, trace + [FlushLine(t)] + more) && t !in After(assoc, trace + [Clear] + more)
    ensures forall x :: x != t ==> (x in After(assoc, trace + [FlushLine(t)]) <==> x in After(assoc, trace))
    ensures After(assoc, trace + [Clear]) == []
  {
    AfterLast(assoc, trace, FlushLine(t));
    AfterLast(assoc, trace, Clear);
    hide After;
    StaysOut(assoc, trace + [FlushLine(t)], t, more);
    StaysOut(assoc, trace + [Clear], t, more);
  }

  // ----- stack inclusion --------------------------------------------------------------------------------

  lemma AtPrefix(a: seq<Tag>, b: seq<Tag>, k: nat)
    requires a <= b && k < |b|
    ensures if k < |a| then Cut(a, k) <= Cut(b, k) else a <= Cut(b, k)
  {
  }

  lemma WithoutPrefix(a: seq<Tag>, b: seq<Tag>, t: Tag)
    requires a <= b && Distinct(b)
    ensures Without(a, t) <= Without(b, t)
    ensures t in b && t !in a ==> a <= Without(b, t)
  {
    hide Without, Cut;
    if t in b {
      var k :| 0 <= k < |b| && b[k] == t;
      WithoutAt(b, k);
      AtPrefix(a, b, k);
      if k < |a| {
        assert a[k] == t;
        WithoutAt(a, k);
      } else {
        assert t !in a;
      }
    }
  }

  /** The same trace on a smaller and a larger set: the smaller list is always a prefix of the larger, so every hit in
      the smaller is a hit in the larger. */
  lemma {:induction false} StackInclusion(small: nat, large: nat, trace: seq<Request>)
    requires 0 < small <= large
    ensures After(small, trace) <= After(large, trace)
    ensures forall t :: t in After(small, trace) ==> t in After(large, trace)
  {
    if trace != [] {
      var init := trace[..|trace| - 1];
      StackInclusion(small, large, init);
      AfterKeeps(small, init);
      AfterKeeps(large, init);
      var a, b := After(small, init), After(large, init);
      match trace[|trace| - 1]
      case Access(t) => WithoutPrefix(a, b, t);
      case FlushLine(t) => WithoutPrefix(a, b, t);
      case Clear =>
    }
  }

  // ----- reuse distance ---------------------------------------------------------------------------------

  /** The trace that accesses these tags in turn. */
  function Accesses(tags: seq<Tag>): seq<Request> {
    seq(|tags|, i requires 0 <= i < |tags| => Access(tags[i]))
  }

  /** Distinct tags, most recently used first. */
  function Recency(tags: seq<Tag>): seq<Tag> {
    if tags == [] then []
    else [tags[|tags| - 1]] + Without(Recency(tags[..|tags| - 1]), tags[|tags| - 1])
  }

  lemma {:induction false} RecencyTags(tags: seq<Tag>)
    ensures Distinct(Recency(tags)) && forall x :: x in Recency(tags) <==> x in tags
  {
    if tags != [] {
      var n := |tags| - 1;
      RecencyTags(tags[..n]);
      WithoutDistinct(Recency(tags[..n]), tags[n]);
      assert tags == tags[..n] + [tags[n]];
    }
  }

  function Min(a: nat, b: nat): nat {
    if a < b then a else b
  }

  function Truncated(list: seq<Tag>, n: nat): seq<Tag> {
    list[..Min(n, |list|)]
  }

  /** The set holds the distinct tags in recency order, truncated to its associativity. */
  lemma {:induction false} ListIsRecency(assoc: nat, tags: seq<Tag>)
    requires assoc > 0
    ensures After(assoc, Accesses(tags)) == Truncated(Recency(tags), assoc)
  {
    if tags != [] {
      var n := |tags| - 1;
      var t := tags[n];
      assert Accesses(tags)[..n] == Accesses(tags[..n]);
      ListIsRecency(assoc, tags[..n]);
      RecencyTags(tags[..n]);
      TouchTruncated(assoc, Recency(tags[..n]), t);
    }
  }

  lemma TouchTruncated(assoc: nat, list: seq<Tag>, t: Tag)
    requires assoc > 0 && Distinct(list)
    ensures Touch(assoc, Truncated(list, assoc), t) == Truncated([t] + Without(list, t), assoc)
  {
    hide Without, Cut;
    var cut := Truncated(list, assoc);
    if t in list {
      var k :| 0 <= k < |list| && list[k] == t;
      WithoutAt(list, k);
      CutTruncated(assoc, list, k);
      if k < |cut| {
        assert cut[k] == t;
        WithoutAt(cut, k);
      } else {
        assert t !in cut;
      }
    }
  }

  lemma CutTruncated(assoc: nat, list: seq<Tag>, k: nat)
    requires assoc > 0 && k < |list|
    ensures var cut := Truncated(list, assoc);
            var kept := if k < |cut| then Cut(cut, k) else cut[..|cut| - 1];
            [list[k]] + kept == Truncated([list[k]] + Cut(list, k), assoc)
  {
    var cut, all := Truncated(list, assoc), [list[k]] + Cut(list, k);
    if k < |cut| {
      assert |cut| == Min(assoc, |all|);
      assert all[..|cut|] == [list[k]] + Cut(cut, k);
    } else {
      assert |cut| == assoc && cut[..assoc - 1] == list[..assoc - 1];
      assert Cut(list, k)[..assoc - 1] == list[..assoc - 1];
      assert all[..assoc] == [list[k]] + Cut(list, k)[..assoc - 1];
    }
  }

  /** The tags accessed since the last access to t. */
  function Since(tags: seq<Tag>, t: Tag): (r: seq<Tag>)
    requires t in tags
    ensures t !in r
  {
    var n := |tags| - 1;
    if tags[n] == t then [] else
      assert tags == tags[..n] + [tags[n]];
      Since(tags[..n], t) + [tags[n]]
  }

  /** In recency order a tag is preceded by exactly the distinct tags accessed since its last access. */
  lemma {:induction false} RecencyPosition(tags: seq<Tag>, t: Tag)
    requires t in tags
    ensures var d := |Elements(Since(tags, t))|;
            d < |Recency(tags)| && Recency(tags)[d] == t && Elements(Since(tags, t)) == Elements(Recency(tags)[..d])
  {
    var n := |tags| - 1;
    var u := tags[n];
    if u == t {
      assert Elements(Since(tags, t)) == {};
    } else {
      var init := tags[..n];
      assert tags == init + [u];
      RecencyPosition(init, t);
      RecencyTags(init);
      assert Elements(Since(tags, t)) == Elements(Since(init, t)) + {u};
      MoveInFront(Recency(init), u, Elements(Since(init, t)));
    }
  }

  /** Moving u to the front of a list whose first tags are exactly the set since keeps the next tag in place if u is
      in the set, and pushes it back by one if not. */
  lemma MoveInFront(list: seq<Tag>, u: Tag, since: set<Tag>)
    requires Distinct(list) && |since| < |list| && since == Elements(list[..|since|]) && list[|since|] != u
    ensures var d := |since + {u}|; var r := [u] + Without(list, u);
            d < |r| && r[d] == list[|since|] && since + {u} == Elements(r[..d])
  {
    hide Without, Distinct;
    if u in since {
      assert since + {u} == since;
      RotateFront(list, u, |since|);
    } else {
      PrefixKept(list, u, |since|);
      assert ([u] + Without(list, u))[..|since| + 1] == [u] + list[..|since|];
    }
  }

  lemma RotateFront(list: seq<Tag>, u: Tag, d: nat)
    requires Distinct(list) && d < |list| && u in list[..d]
    ensures var r := [u] + Without(list, u); |r| == |list| && r[d] == list[d] && Elements(r[..d]) == Elements(list[..d])
  {
    hide Without;
    var k :| 0 <= k < d && list[k] == u;
    WithoutAt(list, k);
    hide Distinct;
    var r := [u] + Without(list, u);
    assert list[..d] == list[..k] + [u] + list[k + 1..d];
    assert r[..d] == [u] + list[..k] + list[k + 1..d];
  }

  lemma PrefixKept(list: seq<Tag>, u: Tag, d: nat)
    requires Distinct(list) && d < |list| && u !in list[..d] && list[d] != u
    ensures |Without(list, u)| > d && Without(list, u)[..d] == list[..d] && Without(list, u)[d] == list[d]
  {
    hide Without;
    if u in list {
      var k :| 0 <= k < |list| && list[k] == u;
      WithoutAt(list, k);
    }
  }

  /** Reuse distance: an access hits exactly when its tag was accessed before and fewer than assoc distinct other
      tags were accessed since. */
  lemma ReuseDistance(assoc: nat, tags: seq<Tag>, t: Tag)
    requires assoc > 0
    ensures t in After(assoc, Accesses(tags)) <==> t in tags && |Elements(Since(tags, t))| < assoc
  {
    ListIsRecency(assoc, tags);
    RecencyTags(tags);
    var r := Recency(tags);
    if t in tags {
      RecencyPosition(tags, t);
      var d := |Elements(Since(tags, t))|;
      if d < assoc {
        assert Truncated(r, assoc)[d] == t;
      } else {
        forall k | 0 <= k < |Truncated(r, assoc)|
          ensures Truncated(r, assoc)[k] != t
        {
          assert k < d && r[d] == t;
        }
      }
    }
  }
}
