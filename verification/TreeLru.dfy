/** The toggling tree that picks victims in the low-associativity cache, and the set that uses it. */
module TreeLru {
  import opened Basics
  import opened Powers

  /** The tree bits of one set: bit i is the node i of a heap-shaped tree, and nodes from assoc on are the ways. */
  type Bits = seq<bool>

  // ----- the walks ----------------------------------------------------------------------------------------

  /** Walks from node i to a way, toggling every bit on the path: a set bit sends the walk left. */
  function Find(t: Bits, assoc: nat, i: nat): (r: (Bits, nat))
    requires 0 < i < 2 * assoc && assoc <= |t|
    ensures |r.0| == |t| && r.1 < assoc
    decreases 2 * assoc - i
  {
    if i >= assoc then (t, i - assoc)
    else if t[i] then Find(t[i := false], assoc, 2 * i)
    else Find(t[i := true], assoc, 2 * i + 1)
  }

  /** Walks from node i up to the root, setting each parent's bit if the walk came from its left child. */
  function Update(t: Bits, i: nat): (r: Bits)
    requires i / 2 < |t|
    ensures |r| == |t|
    decreases i
  {
    if i / 2 == 0 then t else Update(t[i / 2 := i % 2 == 0], i / 2)
  }

  // ----- a hit points the tree at the way just hit ------------------------------------------------------------

  /** Every bit above node i leads the walk down to i. */
  ghost predicate Points(t: Bits, i: nat)
    requires i / 2 < |t|
    decreases i
  {
    i <= 1 || (t[i / 2] == (i % 2 == 0) && Points(t, i / 2))
  }

  lemma {:induction false} UpdateKeepsBelow(t: Bits, i: nat, j: nat)
    requires i / 2 < |t| && i / 2 < j < |t|
    ensures Update(t, i)[j] == t[j]
    decreases i
  {
    if i / 2 != 0 {
      UpdateKeepsBelow(t[i / 2 := i % 2 == 0], i / 2, j);
    }
  }

  /** The update writes nothing but the nodes above i. */
  lemma {:induction false} UpdateOnPath(t: Bits, i: nat, n: nat)
    requires i / 2 < |t| && n < |t| && (n == 0 || n == i || !Below(i, n))
    ensures Update(t, i)[n] == t[n]
    decreases i
  {
    if i / 2 != 0 {
      assert n != i / 2;
      UpdateOnPath(t[i / 2 := i % 2 == 0], i / 2, n);
    }
  }

  lemma {:induction false} UpdatePoints(t: Bits, i: nat)
    requires i / 2 < |t|
    ensures Points(Update(t, i), i)
    decreases i
  {
    if i / 2 != 0 {
      var t' := t[i / 2 := i % 2 == 0];
      UpdatePoints(t', i / 2);
      UpdateKeepsBelow(t', i / 2, i / 2);
    }
  }

  /** Toggling a bit the walk has passed does not change where it ends. */
  lemma {:induction false} FindReadsBelow(t: Bits, u: Bits, assoc: nat, i: nat)
    requires 0 < i < 2 * assoc && assoc <= |t| == |u|
    requires forall j :: i <= j < |t| ==> t[j] == u[j]
    ensures Find(t, assoc, i).1 == Find(u, assoc, i).1
    decreases 2 * assoc - i
  {
    if i < assoc {
      FindReadsBelow(t[i := !t[i]], u[i := !t[i]], assoc, if t[i] then 2 * i else 2 * i + 1);
    }
  }

  lemma {:induction false} PointedAt(t: Bits, assoc: nat, i: nat)
    requires 0 < i < 2 * assoc && assoc <= |t| && Points(t, i)
    ensures Find(t, assoc, 1).1 == Find(t, assoc, i).1
    decreases i
  {
    if i > 1 {
      var p := i / 2;
      PointedAt(t, assoc, p);
      FindReadsBelow(t[p := !t[p]], t, assoc, i);
    }
  }

  /** After a hit on a way the walk leads back to that way: the way just used is the next victim. The update sets its
      bits with the opposite sense to the walk that reads them. */
  lemma HitIsNextVictim(t: Bits, assoc: nat, way: nat)
    requires way < assoc <= |t|
    ensures Find(Update(t, way + assoc), assoc, 1).1 == way
  {
    UpdatePoints(t, way + assoc);
    PointedAt(Update(t, way + assoc), assoc, way + assoc);
  }

  // ----- the tree as a value ----------------------------------------------------------------------------------

  datatype Tree = Leaf(way: nat) | Node(goLeft: bool, left: Tree, right: Tree)

  function Visit(tree: Tree): (Tree, nat) {
    match tree
    case Leaf(w) => (tree, w)
    case Node(b, l, r) =>
      if b then (Node(false, Visit(l).0, r), Visit(l).1) else (Node(true, l, Visit(r).0), Visit(r).1)
  }

  /** The tree after n visits. */
  function Final(tree: Tree, n: nat): Tree
    decreases n
  {
    if n == 0 then tree else Final(Visit(tree).0, n - 1)
  }

  /** The ways returned by n visits. */
  function Ways(tree: Tree, n: nat): (r: seq<nat>)
    ensures |r| == n
    decreases n
  {
    if n == 0 then [] else [Visit(tree).1] + Ways(Visit(tree).0, n - 1)
  }

  /** How many of n visits go left. */
  function Lefts(goLeft: bool, n: nat): (k: nat)
    ensures k <= n
  {
    if goLeft then (n + 1) / 2 else n / 2
  }

  /** Visits to a node alternate between its subtrees, and neither subtree notices the other's. */
  lemma {:induction false} FinalSplit(b: bool, l: Tree, r: Tree, n: nat)
    ensures var k := Lefts(b, n);
            Final(Node(b, l, r), n) == Node(b == (n % 2 == 0), Final(l, k), Final(r, n - k))
    decreases n
  {
    if n > 0 {
      if b {
        FinalSplit(false, Visit(l).0, r, n - 1);
      } else {
        FinalSplit(true, l, Visit(r).0, n - 1);
      }
    }
  }

  function Times(s: seq<nat>, x: nat): nat {
    if s == [] then 0 else (if s[0] == x then 1 else 0) + Times(s[1..], x)
  }

  lemma {:induction false} TimesConcat(a: seq<nat>, b: seq<nat>, x: nat)
    ensures Times(a + b, x) == Times(a, x) + Times(b, x)
  {
    if a == [] {
      assert a + b == b;
    } else {
      assert (a + b)[1..] == a[1..] + b;
      TimesConcat(a[1..], b, x);
    }
  }

  lemma LeftsStep(b: bool, n: nat)
    requires n > 0
    ensures Lefts(b, n) == if b then Lefts(false, n - 1) + 1 else Lefts(true, n - 1)
  {
  }

  lemma VisitNode(l: Tree, r: Tree)
    ensures Visit(Node(true, l, r)) == (Node(false, Visit(l).0, r), Visit(l).1)
    ensures Visit(Node(false, l, r)) == (Node(true, l, Visit(r).0), Visit(r).1)
  {
  }

  /** The first of n visits, counted apart. */
  lemma WaysStep(tree: Tree, n: nat, x: nat)
    requires n > 0
    ensures Times(Ways(tree, n), x) == (if Visit(tree).1 == x then 1 else 0) + Times(Ways(Visit(tree).0, n - 1), x)
  {
    assert Ways(tree, n)[1..] == Ways(Visit(tree).0, n - 1);
  }

  lemma {:induction false} WaysSplit(b: bool, l: Tree, r: Tree, n: nat, x: nat)
    ensures var k := Lefts(b, n);
            Times(Ways(Node(b, l, r), n), x) == Times(Ways(l, k), x) + Times(Ways(r, n - k), x)
    decreases n
  {
    if n > 0 {
      hide Ways, Times, Lefts, Visit;
      var k := Lefts(b, n);
      VisitNode(l, r);
      LeftsStep(b, n);
      WaysStep(Node(b, l, r), n, x);
      if b {
        WaysSplit(false, Visit(l).0, r, n - 1, x);
        WaysStep(l, k, x);
      } else {
        WaysSplit(true, l, Visit(r).0, n - 1, x);
        WaysStep(r, n - k, x);
      }
    }
  }

  ghost predicate Perfect(tree: Tree, height: nat) {
    match tree
    case Leaf(_) => height == 0
    case Node(_, l, r) => height > 0 && Perfect(l, height - 1) && Perfect(r, height - 1)
  }

  function Leaves(tree: Tree): seq<nat> {
    match tree
    case Leaf(w) => [w]
    case Node(_, l, r) => Leaves(l) + Leaves(r)
  }

  /** As many visits as a perfect tree has leaves return each way as often as it is a leaf, and leave the tree as it
      was. */
  lemma {:induction false} PerfectSweep(tree: Tree, height: nat, x: nat)
    requires Perfect(tree, height)
    ensures Times(Ways(tree, Pow2(height)), x) == Times(Leaves(tree), x)
    ensures Final(tree, Pow2(height)) == tree
  {
    match tree
    case Leaf(w) =>
      assert Pow2(0) == 1 && Ways(tree, 1) == [w] + Ways(tree, 0);
      assert Final(tree, 1) == Final(tree, 0);
    case Node(b, l, r) =>
      hide Ways, Final, Times;
      FinalSplit(b, l, r, Pow2(height));
      WaysSplit(b, l, r, Pow2(height), x);
      PerfectSweep(l, height - 1, x);
      PerfectSweep(r, height - 1, x);
      TimesConcat(Leaves(l), Leaves(r), x);
  }

  // ----- the bits as a tree -----------------------------------------------------------------------------------

  function TreeOf(t: Bits, assoc: nat, i: nat): Tree
    requires 0 < i < 2 * assoc && assoc <= |t|
    decreases 2 * assoc - i
  {
    if i >= assoc then Leaf(i - assoc) else Node(t[i], TreeOf(t, assoc, 2 * i), TreeOf(t, assoc, 2 * i + 1))
  }

  /** Node n lies at or below node i. */
  ghost predicate Below(n: nat, i: nat)
    decreases n
  {
    n == i || (n > i && Below(n / 2, i))
  }

  lemma {:induction false} SiblingsApart(n: nat, i: nat)
    requires i > 0 && Below(n, 2 * i)
    ensures !Below(n, 2 * i + 1)
    decreases n
  {
    if n > 2 * i + 1 {
      SiblingsApart(n / 2, i);
    }
  }

  lemma {:induction false} BelowChild(n: nat, i: nat, c: nat)
    requires i > 0 && c / 2 == i && Below(n, c)
    ensures n > i && Below(n, i)
    decreases n
  {
    if n > c {
      BelowChild(n / 2, i, c);
    } else {
      assert Below(i, i);
    }
  }

  ghost predicate AgreeBelow(t: Bits, u: Bits, i: nat)
    requires |t| == |u|
  {
    forall n :: 0 <= n < |t| && Below(n, i) ==> t[n] == u[n]
  }

  lemma AgreeChild(t: Bits, u: Bits, i: nat, c: nat)
    requires |t| == |u| && i > 0 && c / 2 == i && AgreeBelow(t, u, i)
    ensures AgreeBelow(t, u, c)
  {
    forall n | 0 <= n < |t| && Below(n, c)
      ensures t[n] == u[n]
    {
      BelowChild(n, i, c);
    }
  }

  lemma {:induction false} TreeReadsBelow(t: Bits, u: Bits, assoc: nat, i: nat)
    requires 0 < i < 2 * assoc && assoc <= |t| == |u| && AgreeBelow(t, u, i)
    ensures TreeOf(t, assoc, i) == TreeOf(u, assoc, i)
    decreases 2 * assoc - i
  {
    if i < assoc {
      assert Below(i, i);
      AgreeChild(t, u, i, 2 * i);
      AgreeChild(t, u, i, 2 * i + 1);
      TreeReadsBelow(t, u, assoc, 2 * i);
      TreeReadsBelow(t, u, assoc, 2 * i + 1);
    }
  }

  lemma {:induction false} FindWritesBelow(t: Bits, assoc: nat, i: nat, n: nat)
    requires 0 < i < 2 * assoc && assoc <= |t| && n < |t| && !Below(n, i)
    ensures Find(t, assoc, i).0[n] == t[n]
    decreases 2 * assoc - i
  {
    if i < assoc {
      var c := if t[i] then 2 * i else 2 * i + 1;
      if Below(n, c) {
        BelowChild(n, i, c);
      }
      FindWritesBelow(t[i := !t[i]], assoc, c, n);
    }
  }

  /** The other child's bits are out of reach of a walk into child c. */
  lemma OtherChildKept(t: Bits, assoc: nat, i: nat, c: nat, o: nat)
    requires 0 < i < assoc <= |t| && {c, o} == {2 * i, 2 * i + 1}
    ensures AgreeBelow(Find(t[i := !t[i]], assoc, c).0, t, o)
  {
    var u := t[i := !t[i]];
    forall n | 0 <= n < |t| && Below(n, o)
      ensures Find(u, assoc, c).0[n] == t[n]
    {
      assert o in {c, o} && c in {c, o};
      BelowChild(n, i, o);
      if Below(n, 2 * i) {
        SiblingsApart(n, i);
      }
      FindWritesBelow(u, assoc, c, n);
    }
  }

  /** The walk over the bits is a visit of the tree. */
  lemma {:induction false} FindIsVisit(t: Bits, assoc: nat, i: nat)
    requires 0 < i < 2 * assoc && assoc <= |t|
    ensures var r := Find(t, assoc, i); (TreeOf(r.0, assoc, i), r.1) == Visit(TreeOf(t, assoc, i))
    decreases 2 * assoc - i
  {
    if i < assoc {
      var c := if t[i] then 2 * i else 2 * i + 1;
      var o := if t[i] then 2 * i + 1 else 2 * i;
      var u := t[i := !t[i]];
      var r := Find(u, assoc, c).0;
      FindIsVisit(u, assoc, c);
      OtherChildKept(t, assoc, i, c, o);
      TreeReadsBelow(r, t, assoc, o);
      assert !Below(i, c);
      FindWritesBelow(u, assoc, c, i);
      ToggleKeepsChild(t, assoc, i, c);
    }
  }

  lemma ToggleKeepsChild(t: Bits, assoc: nat, i: nat, c: nat)
    requires 0 < i < assoc <= |t| && c / 2 == i
    ensures TreeOf(t[i := !t[i]], assoc, c) == TreeOf(t, assoc, c)
  {
    forall n | 0 <= n < |t| && Below(n, c)
      ensures t[i := !t[i]][n] == t[n]
    {
      BelowChild(n, i, c);
    }
    TreeReadsBelow(t[i := !t[i]], t, assoc, c);
  }

  function Range(from: nat, n: nat): seq<nat> {
    seq(n, x requires 0 <= x < n => from + x)
  }

  lemma RangeHalves(from: nat, n: nat)
    ensures Range(from, n) + Range(from + n, n) == Range(from, 2 * n)
  {
  }

  /** Node i at the given height over the ways is a perfect tree over consecutive ways. */
  lemma {:induction false} HeapIsPerfect(t: Bits, assoc: nat, i: nat, height: nat)
    requires 0 < i && assoc <= i * Pow2(height) && (i + 1) * Pow2(height) <= 2 * assoc && assoc <= |t|
    ensures i < 2 * assoc && Perfect(TreeOf(t, assoc, i), height)
    ensures Leaves(TreeOf(t, assoc, i)) == Range(i * Pow2(height) - assoc, Pow2(height))
    decreases height
  {
    if height == 0 {
      assert Pow2(0) == 1;
    } else {
      var h := Pow2(height - 1);
      assert Pow2(height) == 2 * h;
      Doubling(i, h);
      hide Pow2;
      HeapIsPerfect(t, assoc, 2 * i, height - 1);
      HeapIsPerfect(t, assoc, 2 * i + 1, height - 1);
      RangeHalves(2 * i * h - assoc, h);
    }
  }

  lemma Doubling(i: nat, h: nat)
    requires h > 0
    ensures 2 * i * h == i * (2 * h) && (2 * i + 1) * h == 2 * i * h + h && (2 * i + 1 + 1) * h == (i + 1) * (2 * h)
    ensures (i + 1) * (2 * h) >= 2 * (i + 1)
  {
  }

  // ----- the sweep --------------------------------------------------------------------------------------------

  /** The bits after n walks from the root. */
  function Swept(t: Bits, assoc: nat, n: nat): (r: Bits)
    requires 0 < assoc <= |t|
    ensures |r| == |t|
    decreases n
  {
    if n == 0 then t else Swept(Find(t, assoc, 1).0, assoc, n - 1)
  }

  /** The ways returned by n walks from the root. */
  function Victims(t: Bits, assoc: nat, n: nat): (r: seq<nat>)
    requires 0 < assoc <= |t|
    ensures |r| == n && forall i :: 0 <= i < n ==> r[i] < assoc
    decreases n
  {
    if n == 0 then [] else [Find(t, assoc, 1).1] + Victims(Find(t, assoc, 1).0, assoc, n - 1)
  }

  lemma {:induction false} SweepIsVisits(t: Bits, assoc: nat, n: nat)
    requires 0 < assoc <= |t|
    ensures Victims(t, assoc, n) == Ways(TreeOf(t, assoc, 1), n)
    ensures TreeOf(Swept(t, assoc, n), assoc, 1) == Final(TreeOf(t, assoc, 1), n)
    decreases n
  {
    if n > 0 {
      FindIsVisit(t, assoc, 1);
      SweepIsVisits(Find(t, assoc, 1).0, assoc, n - 1);
    }
  }

  lemma {:induction false} TimesRange(from: nat, n: nat, x: nat)
    ensures Times(Range(from, n), x) == if from <= x < from + n then 1 else 0
    decreases n
  {
    if n > 0 {
      assert Range(from, n)[1..] == Range(from + 1, n - 1);
      TimesRange(from + 1, n - 1, x);
    }
  }

  /** From any state of the tree, assoc walks in a row return every way exactly once, and leave every node as it was:
      the sweep repeats itself. */
  lemma TreeSweep(t: Bits, k: nat)
    requires Pow2(k) <= |t|
    ensures forall way :: 0 <= way < Pow2(k) ==> Times(Victims(t, Pow2(k), Pow2(k)), way) == 1
    ensures TreeOf(Swept(t, Pow2(k), Pow2(k)), Pow2(k), 1) == TreeOf(t, Pow2(k), 1)
  {
    hide Times, Pow2, Ways, Final, TreeOf, Perfect, Range, Swept, Victims, Leaves;
    var n := Pow2(k);
    SweepIsVisits(t, n, n);
    HeapIsPerfect(t, n, 1, k);
    PerfectSweep(TreeOf(t, n, 1), k, 0);
    forall way | 0 <= way < n
      ensures Times(Victims(t, n, n), way) == 1
    {
      PerfectSweep(TreeOf(t, n, 1), k, way);
      TimesRange(0, n, way);
    }
  }

  // ----- one set ----------------------------------------------------------------------------------------------

  /** The index of the first way that is valid and holds the tag, or the number of ways. */
  function WayOf(tags: seq<nat>, valid: Bits, t: nat): (w: nat)
    requires |valid| == |tags|
    ensures w <= |tags|
    ensures w < |tags| ==> valid[w] && tags[w] == t
    ensures forall i :: 0 <= i < w ==> !(valid[i] && tags[i] == t)
  {
    if tags == [] then 0 else if valid[0] && tags[0] == t then 0 else 1 + WayOf(tags[1..], valid[1..], t)
  }

  /** The index of the first unset bit, or the length. */
  function FirstUnset(valid: Bits): (w: nat)
    ensures w <= |valid|
    ensures w < |valid| ==> !valid[w]
    ensures forall i :: 0 <= i < w ==> valid[i]
  {
    if valid == [] then 0 else if !valid[0] then 0 else 1 + FirstUnset(valid[1..])
  }

  datatype SetState = SetState(tags: seq<nat>, valid: Bits, lru: Bits) {
    ghost predicate Wf() {
      && 0 < |tags| == |valid| <= |lru|
      && forall i, j :: 0 <= i < j < |tags| && valid[i] && valid[j] ==> tags[i] != tags[j]
    }

    ghost predicate Full() {
      forall i :: 0 <= i < |valid| ==> valid[i]
    }

    predicate Hits(t: nat)
      requires |valid| == |tags|
    {
      WayOf(tags, valid, t) < |tags|
    }

    /** A hit points the tree at its way; a miss fills the first free way, or the way the tree leads to. */
    function Serve(t: nat): SetState
      requires 0 < |tags| == |valid| <= |lru|
    {
      var n := |tags|;
      var w := WayOf(tags, valid, t);
      var free := FirstUnset(valid);
      if w < n then this.(lru := Update(lru, w + n))
      else if free < n then SetState(tags[free := t], valid[free := true], Update(lru, free + n))
      else var (l, victim) := Find(lru, n, 1); SetState(tags[victim := t], valid, l)
    }

    lemma ServeKeeps(t: nat)
      requires Wf()
      ensures Serve(t).Wf() && |Serve(t).tags| == |tags| && |Serve(t).lru| == |lru|
      ensures Serve(t).Hits(t)
      ensures Full() ==> Serve(t).Full()
    {
      hide Find, Update;
      var n := |tags|;
      var w := WayOf(tags, valid, t);
      var free := FirstUnset(valid);
      var at := if w < n then w else if free < n then free else Find(lru, n, 1).1;
      assert Serve(t).valid[at] && Serve(t).tags[at] == t;
    }
  }

  /** Serves a run of tags in turn. */
  function ServeAll(s: SetState, ts: seq<nat>): (r: SetState)
    requires 0 < |s.tags| == |s.valid| <= |s.lru|
    ensures |r.tags| == |s.tags| && |r.valid| == |s.valid| && |r.lru| == |s.lru|
    decreases |ts|
  {
    if ts == [] then s else ServeAll(s.Serve(ts[0]), ts[1..])
  }

  /** None of the tags is in the set when it is asked for. */
  ghost predicate AllMiss(s: SetState, ts: seq<nat>)
    requires 0 < |s.tags| == |s.valid| <= |s.lru|
    decreases |ts|
  {
    ts == [] || (!s.Hits(ts[0]) && AllMiss(s.Serve(ts[0]), ts[1..]))
  }

  /** What a run of misses on a full set leaves in a way: the last tag put there. */
  function Placed(ways: seq<nat>, ts: seq<nat>, w: nat, before: nat): nat
    requires |ways| == |ts|
  {
    if ways == [] then before
    else Placed(ways[1..], ts[1..], w, if ways[0] == w then ts[0] else before)
  }

  lemma {:induction false} MissesFollowVictims(s: SetState, ts: seq<nat>, w: nat)
    requires s.Wf() && s.Full() && AllMiss(s, ts) && w < |s.tags|
    ensures ServeAll(s, ts).Wf() && ServeAll(s, ts).Full() && |ServeAll(s, ts).tags| == |s.tags|
    ensures ServeAll(s, ts).tags[w] == Placed(Victims(s.lru, |s.tags|, |ts|), ts, w, s.tags[w])
    ensures ServeAll(s, ts).lru == Swept(s.lru, |s.tags|, |ts|)
    decreases |ts|
  {
    if ts != [] {
      s.ServeKeeps(ts[0]);
      MissesFollowVictims(s.Serve(ts[0]), ts[1..], w);
      assert Victims(s.lru, |s.tags|, |ts|)[1..] == Victims(s.Serve(ts[0]).lru, |s.tags|, |ts| - 1);
    }
  }

  lemma {:induction false} PlacedUntouched(ways: seq<nat>, ts: seq<nat>, w: nat, before: nat)
    requires |ways| == |ts| && Times(ways, w) == 0
    ensures Placed(ways, ts, w, before) == before
  {
    if ways != [] {
      PlacedUntouched(ways[1..], ts[1..], w, before);
    }
  }

  lemma {:induction false} PlacedOnce(ways: seq<nat>, ts: seq<nat>, w: nat, before: nat) returns (i: nat)
    requires |ways| == |ts| && Times(ways, w) == 1
    ensures i < |ways| && ways[i] == w && Placed(ways, ts, w, before) == ts[i]
  {
    if ways[0] == w {
      PlacedUntouched(ways[1..], ts[1..], w, ts[0]);
      i := 0;
    } else {
      i := PlacedOnce(ways[1..], ts[1..], w, before);
      i := i + 1;
    }
  }

  /** As many misses in a row on a full set as it has ways, with no hit between, replace every way exactly once: each
      way ends up with the tag of the one miss that chose it. */
  lemma MissesReplaceEachWay(s: SetState, ts: seq<nat>, k: nat, w: nat) returns (i: nat)
    requires s.Wf() && s.Full() && AllMiss(s, ts) && |ts| == |s.tags| == Pow2(k) && w < |s.tags|
    ensures i < |ts| && Victims(s.lru, |s.tags|, |ts|)[i] == w
    ensures |ServeAll(s, ts).tags| == |s.tags| && ServeAll(s, ts).tags[w] == ts[i]
    ensures forall j :: 0 <= j < |ts| && j != i ==> Victims(s.lru, |s.tags|, |ts|)[j] != w
  {
    hide Victims, Placed, ServeAll, Swept, Times, AllMiss;
    TreeSweep(s.lru, k);
    MissesFollowVictims(s, ts, w);
    var ways := Victims(s.lru, |s.tags|, |ts|);
    i := PlacedOnce(ways, ts, w, s.tags[w]);
    OnlyOnce(ways, w, i);
  }

  lemma {:induction false} TimesAt(s: seq<nat>, j: nat)
    requires j < |s|
    ensures Times(s, s[j]) >= 1
  {
    if j > 0 {
      TimesAt(s[1..], j - 1);
    }
  }

  lemma TwiceAt(s: seq<nat>, a: nat, b: nat)
    requires a < b < |s| && s[a] == s[b]
    ensures Times(s, s[a]) >= 2
  {
    assert s == s[..b] + s[b..] && s[..b][a] == s[a] && s[b..][0] == s[a];
    TimesConcat(s[..b], s[b..], s[a]);
    TimesAt(s[..b], a);
    TimesAt(s[b..], 0);
  }

  lemma OnlyOnce(s: seq<nat>, w: nat, i: nat)
    requires i < |s| && s[i] == w && Times(s, w) == 1
    ensures forall j :: 0 <= j < |s| && j != i ==> s[j] != w
  {
    forall j | 0 <= j < |s| && j != i
      ensures s[j] != w
    {
      if s[j] == w {
        TwiceAt(s, if i < j then i else j, if i < j then j else i);
      }
    }
  }

  /** On a full set a hit followed by a miss throws out exactly the tag that was hit. */
  lemma HitThenMissEvicts(s: SetState, t: nat, u: nat)
    requires s.Wf() && s.Full() && s.Hits(t) && !s.Serve(t).Hits(u)
    ensures !s.Serve(t).Serve(u).Hits(t)
    ensures forall x :: s.Hits(x) && x != t ==> s.Serve(t).Serve(u).Hits(x)
  {
    s.ServeKeeps(t);
    s.Serve(t).ServeKeeps(u);
    var n := |s.tags|;
    var w := WayOf(s.tags, s.valid, t);
    HitIsNextVictim(s.lru, n, w);
    var r := s.Serve(t).Serve(u);
    hide Find, Update;
    assert r.tags == s.tags[w := u];
    forall x | s.Hits(x) && x != t
      ensures r.Hits(x)
    {
      assert r.tags[WayOf(s.tags, s.valid, x)] == x;
    }
  }

  // ----- a set with room ------------------------------------------------------------------------------------------

  /** A hit moves no tag and points the tree at the way hit. */
  lemma HitKeepsTags(s: SetState, t: nat)
    requires s.Wf() && s.Hits(t)
    ensures var r := s.Serve(t); var n := |s.tags|;
            && r.tags == s.tags && r.valid == s.valid
            && Find(r.lru, n, 1).1 == WayOf(s.tags, s.valid, t) && s.tags[Find(r.lru, n, 1).1] == t
  {
    HitIsNextVictim(s.lru, |s.tags|, WayOf(s.tags, s.valid, t));
  }

  /** A miss with ways free fills the lowest of them and points the tree at it; nothing is thrown out. */
  lemma MissFillsLowest(s: SetState, t: nat) returns (w: nat)
    requires s.Wf() && !s.Hits(t) && !s.Full()
    ensures w < |s.tags| && !s.valid[w] && forall i :: 0 <= i < w ==> s.valid[i]
    ensures s.Serve(t).tags == s.tags[w := t] && s.Serve(t).valid == s.valid[w := true]
    ensures Find(s.Serve(t).lru, |s.tags|, 1).1 == w
  {
    w := FirstUnset(s.valid);
    HitIsNextVictim(s.lru, |s.tags|, w);
  }

  /** A miss on a full set replaces the one way the tree leads to. */
  lemma MissReplacesVictim(s: SetState, t: nat)
    requires s.Wf() && !s.Hits(t) && s.Full()
    ensures var v := Find(s.lru, |s.tags|, 1).1; s.Serve(t).tags == s.tags[v := t] && s.Serve(t).valid == s.valid
    ensures forall x :: s.Serve(t).Hits(x) <==> x == t || (s.Hits(x) && x != s.tags[Find(s.lru, |s.tags|, 1).1])
  {
    hide Find;
    var n, v, r := |s.tags|, Find(s.lru, |s.tags|, 1).1, s.Serve(t);
    forall x
      ensures r.Hits(x) <==> x == t || (s.Hits(x) && x != s.tags[v])
    {
      HeldAt(s, x);
      HeldAt(r, x);
      if s.Hits(x) && x != s.tags[v] {
        assert r.tags[WayOf(s.tags, s.valid, x)] == x;
      }
      assert r.tags[v] == t;
    }
  }

  lemma HeldAt(s: SetState, x: nat)
    requires |s.tags| == |s.valid|
    ensures s.Hits(x) <==> exists i :: 0 <= i < |s.tags| && s.valid[i] && s.tags[i] == x
  {
  }

  /** While there is room, or on a hit, the set holds afterwards what it held before and the tag served. */
  lemma RoomKeeps(s: SetState, t: nat)
    requires s.Wf() && (s.Hits(t) || !s.Full())
    ensures forall x :: s.Serve(t).Hits(x) <==> s.Hits(x) || x == t
  {
    hide Find, Update;
    var r := s.Serve(t);
    s.ServeKeeps(t);
    forall x
      ensures r.Hits(x) <==> s.Hits(x) || x == t
    {
      HeldAt(s, x);
      HeldAt(r, x);
      if s.Hits(x) {
        var i := WayOf(s.tags, s.valid, x);
        assert r.valid[i] && r.tags[i] == x;
      }
    }
  }

  ghost predicate Vacant(s: SetState) {
    s.Wf() && forall i :: 0 <= i < |s.valid| ==> !s.valid[i]
  }

  lemma FullHolds(s: SetState, held: set<nat>)
    requires s.Wf() && s.Full() && forall x :: s.Hits(x) ==> x in held
    ensures |held| >= |s.tags|
  {
    ElementsCount(s.tags);
    forall x | x in Elements(s.tags)
      ensures x in held
    {
      HeldAt(s, x);
    }
    SubsetSize(Elements(s.tags), held);
  }

  lemma ServeLast(s: SetState, ts: seq<nat>, t: nat)
    requires 0 < |s.tags| == |s.valid| <= |s.lru|
    ensures ServeAll(s, ts + [t]) == ServeAll(s, ts).Serve(t)
    decreases |ts|
  {
    if ts == [] {
      assert [] + [t] == [t] && [t][1..] == [];
    } else {
      assert (ts + [t])[0] == ts[0] && (ts + [t])[1..] == ts[1..] + [t];
      ServeLast(s.Serve(ts[0]), ts[1..], t);
    }
  }

  /** A vacant set asked for no more different tags than it has ways throws nothing out: it ends up holding exactly the
      tags asked for. */
  lemma {:induction false} FewTagsStay(s: SetState, ts: seq<nat>)
    requires Vacant(s) && |Elements(ts)| <= |s.tags|
    ensures ServeAll(s, ts).Wf() && |ServeAll(s, ts).tags| == |s.tags|
    ensures forall x :: ServeAll(s, ts).Hits(x) <==> x in ts
    decreases |ts|
  {
    if ts == [] {
      forall x
        ensures !s.Hits(x)
      {
        HeldAt(s, x);
      }
    } else {
      hide SetState.Serve, Vacant, SetState.Hits, SetState.Full, SetState.Wf;
      var n := |ts| - 1;
      var init, t := ts[..n], ts[n];
      assert ts == init + [t];
      SubsetSize(Elements(init), Elements(ts));
      FewTagsStay(s, init);
      ServeLast(s, init, t);
      StaysNext(ServeAll(s, init), init, t);
    }
  }

  lemma StaysNext(s: SetState, init: seq<nat>, t: nat)
    requires s.Wf() && |Elements(init + [t])| <= |s.tags| && forall x :: s.Hits(x) <==> x in init
    ensures s.Serve(t).Wf() && |s.Serve(t).tags| == |s.tags|
    ensures forall x :: s.Serve(t).Hits(x) <==> x in init + [t]
  {
    s.ServeKeeps(t);
    hide SetState.Serve, SetState.Hits, SetState.Full, SetState.Wf;
    assert Elements(init + [t]) == Elements(init) + {t};
    if s.Full() && !s.Hits(t) {
      FullHolds(s, Elements(init));
      assert false;
    }
    RoomKeeps(s, t);
  }

  class LowAssocSet {
    const assoc: nat
    const tag: array<nat>
    var valid: Bits
    var allValid: bool
    var lru: Bits

    ghost predicate Valid()
      reads this, tag
    {
      && tag.Length == assoc && |valid| == assoc && |lru| == 64 && 0 < assoc <= 64
      && State().Wf()
      && (allValid <==> State().Full())
    }

    ghost function State(): SetState
      reads this, tag
    {
      SetState(tag[..], valid, lru)
    }

    constructor (assoc: nat)
      requires 0 < assoc <= 64
      ensures Valid() && this.assoc == assoc && valid == seq(assoc, _ => false) && lru == seq(64, _ => false)
    {
      this.assoc := assoc;
      tag := new nat[assoc](_ => 0);
      valid := seq(assoc, _ => false);
      lru := seq(64, _ => false);
      allValid := false;
      new;
      assert !valid[0];
    }

    method UpdateLRU(idx: nat)
      requires idx < assoc <= |lru|
      modifies this`lru
      ensures lru == Update(old(lru), idx + assoc)
    {
      var lastIdx: nat := idx + assoc;
      var lruIdx := lastIdx / 2;
      var t := lru;
      while lruIdx > 0
        invariant lruIdx == lastIdx / 2 && lruIdx < |t| && |t| == |lru|
        invariant Update(t, lastIdx) == Update(lru, idx + assoc)
      {
        t := t[lruIdx := lastIdx % 2 == 0];
        lastIdx := lruIdx;
        lruIdx := lruIdx / 2;
      }
      lru := t;
    }

    method FindLRU() returns (offs: nat)
      requires 0 < assoc <= |lru|
      modifies this`lru
      ensures (lru, offs) == Find(old(lru), assoc, 1)
    {
      var lruIdx := 1;
      var t := lru;
      while lruIdx < assoc
        invariant 0 < lruIdx < 2 * assoc && |t| == |lru|
        invariant Find(t, assoc, lruIdx) == Find(lru, assoc, 1)
        decreases 2 * assoc - lruIdx
      {
        if t[lruIdx] {
          t := t[lruIdx := false];
          lruIdx := 2 * lruIdx;
        } else {
          t := t[lruIdx := true];
          lruIdx := 2 * lruIdx + 1;
        }
      }
      offs := lruIdx - assoc;
      lru := t;
    }

    /** The way that holds the tag, looking at every way of a full set and at the valid ways of any other. */
    method Lookup(t: nat) returns (a: nat)
      requires Valid()
      ensures a == WayOf(tag[..], valid, t)
    {
      a := 0;
      while a < assoc && !((allValid || valid[a]) && tag[a] == t)
        invariant a <= assoc
        invariant forall i :: 0 <= i < a ==> !(valid[i] && tag[i] == t)
      {
        a := a + 1;
      }
    }

    method Access(t: nat) returns (hit: bool)
      requires Valid()
      modifies this`valid, this`allValid, this`lru, tag
      ensures Valid() && hit == old(State().Hits(t))
      ensures State() == old(State()).Serve(t)
    {
      hide Find, Update, WayOf, FirstUnset;
      ghost var before := State();
      before.ServeKeeps(t);
      var a := Lookup(t);
      hit := a < assoc;
      if hit {
        UpdateLRU(a);
      } else if allValid {
        var offs := FindLRU();
        tag[offs] := t;
      } else {
        var offs := FirstUnset(valid);
        UpdateLRU(offs);
        valid := valid[offs := true];
        allValid := FirstUnset(valid) == assoc;
        tag[offs] := t;
      }
    }
  }
}
