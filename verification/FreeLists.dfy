/** Free-list conservation in every reachable state. */
module FreeLists {
  import opened Basics
  import opened Isa
  import opened Core
  import opened Renaming
  import opened Dataflow
  import opened Reachability

  ghost predicate PrevOf(log: seq<seq<Dest>>, p: nat) {
    exists i :: 0 <= i < |log| && IsPrev(log[i], p)
  }

  ghost predicate NewOf(log: seq<seq<Dest>>, p: nat) {
    exists i :: 0 <= i < |log| && IsNew(log[i], p)
  }

  /** No register is the previous (new) register of two destinations in flight. */
  ghost predicate PrevsDistinct(log: seq<seq<Dest>>) {
    forall i, j, i', j' ::
      (0 <= i < |log| && 0 <= j < |log[i]| && 0 <= i' < |log| && 0 <= j' < |log[i']| &&
       log[i][j].prev == log[i'][j'].prev) ==> i == i' && j == j'
  }

  ghost predicate NewsDistinct(log: seq<seq<Dest>>) {
    forall i, j, i', j' ::
      (0 <= i < |log| && 0 <= j < |log[i]| && 0 <= i' < |log| && 0 <= j' < |log[i']| &&
       log[i][j].prf == log[i'][j'].prf) ==> i == i' && j == j'
  }

  /** In use: mapped speculatively, or the previous register of an op in flight; never both. */
  ghost predicate MappedOrPrevious(t: Tables) {
    forall p :: 0 <= p < |t.used| ==>
      (t.used[p] <==> p in t.rat || PrevOf(t.log, p)) && !(p in t.rat && PrevOf(t.log, p))
  }

  /** In use: a retired mapping, or the new register of an op in flight; never both. */
  ghost predicate RetiredOrNew(t: Tables) {
    forall p :: 0 <= p < |t.used| ==>
      (t.used[p] <==> p in t.ratR || NewOf(t.log, p)) && !(p in t.ratR && NewOf(t.log, p))
  }

  /** The registers of a file, those of them in use, and the destinations in flight that lie in it. */
  ghost function InBank(bank: seq<nat>, b: nat): set<nat> {
    set p: nat | p < |bank| && bank[p] == b
  }

  ghost function UsedIn(bank: seq<nat>, used: seq<bool>, b: nat): set<nat> {
    set p: nat | p < |bank| && p < |used| && bank[p] == b && used[p]
  }

  ghost function DestsInBank(bankP: seq<nat>, log: seq<seq<Dest>>, b: nat): set<(nat, nat)> {
    set i: nat, j: nat | i < |log| && j < |log[i]| && log[i][j].prf < |bankP| && bankP[log[i][j].prf] == b :: (i, j)
  }

  /** In each file one register is in use per architectural one, and one more per destination in flight. */
  ghost predicate FileCounts(sys: Sys, t: Tables, b: nat) {
    && |UsedIn(sys.bankP, t.usedR, b)| == |InBank(sys.bankA, b)|
    && |UsedIn(sys.bankP, t.used, b)| == |InBank(sys.bankA, b)| + |DestsInBank(sys.bankP, t.log, b)|
  }

  ghost predicate FilesConserved(sys: Sys, t: Tables) {
    forall b: nat :: FileCounts(sys, t, b)
  }

  ghost predicate Conserved(sys: Sys, t: Tables) {
    && Distinct(t.rat) && Distinct(t.ratR) && PrevsDistinct(t.log) && NewsDistinct(t.log)
    && MappedOrPrevious(t) && RetiredOrNew(t)
    && |t.usedR| == |t.used| && (forall p :: 0 <= p < |t.usedR| ==> (t.usedR[p] <==> p in t.ratR))
    && FilesConserved(sys, t)
  }

  /** In every reachable state the registers in use are the disjoint union of the speculative mappings and the previous
      registers of in-flight ops, and of the retired mappings and the new registers; and the count of each file is
      exact. */
  lemma FreeListConservation(sys: Sys, c: State)
    requires Reachable(sys, c)
    ensures Conserved(sys, View(c))
  {
    hide Reachable, RenameInv, Conserved;
    ReachableStructured(sys, c);
    var own, rats :| DataInv(false, sys, c, own, rats);
    TablesConserved(sys, View(c), own, rats);
  }

  lemma TablesConserved(sys: Sys, t: Tables, own: seq<Owner>, rats: seq<seq<nat>>)
    requires RenameInv(sys, t, own, rats)
    ensures Conserved(sys, t)
  {
    assert Banked(sys.bankA, sys.bankP, rats[0]);
    hide PrevsDistinct, NewsDistinct, MappedOrPrevious, RetiredOrNew, Distinct, Latest, Banked, FileCounts;
    SnapshotInjective(t, own, rats, 0);
    SnapshotInjective(t, own, rats, |t.log|);
    AllPrevsDistinct(t, own, rats);
    AllNewsDistinct(t, own);
    SpeculativeSplit(t, own, rats);
    RetiredSplit(t, own);
    forall b: nat
      ensures FileCounts(sys, t, b)
    {
      CountFile(sys, t, b);
    }
  }

  /** Two sets with a one-to-one function between them have the same size. */
  lemma {:induction false} SameSize<A(!new), B>(s: set<A>, t: set<B>, f: A -> B)
    requires forall x :: x in s ==> f(x) in t
    requires forall x, y :: x in s && y in s && f(x) == f(y) ==> x == y
    requires forall y :: y in t ==> exists x :: x in s && f(x) == y
    ensures |s| == |t|
    decreases s
  {
    if s == {} {
      assert t == {};
    } else {
      var x :| x in s;
      SameSize(s - {x}, t - {f(x)}, f);
    }
  }

  lemma CountFile(sys: Sys, t: Tables, b: nat)
    requires Sized(t) && |t.used| == |sys.bankP| && Distinct(t.ratR) && Banked(sys.bankA, sys.bankP, t.ratR)
    requires NewsDistinct(t.log) && RetiredOrNew(t)
    requires |t.usedR| == |t.used| && forall p :: 0 <= p < |t.usedR| ==> (t.usedR[p] <==> p in t.ratR)
    ensures FileCounts(sys, t, b)
  {
    RetiredFile(sys, t, b);
    NewFile(sys, t, b);
    hide InBank, DestsInBank, NewsDistinct, Distinct, Banked;
    assert UsedIn(sys.bankP, t.used, b) == UsedIn(sys.bankP, t.usedR, b) + NewsIn(sys.bankP, t.log, b);
    assert UsedIn(sys.bankP, t.usedR, b) !! NewsIn(sys.bankP, t.log, b);
  }

  lemma RetiredFile(sys: Sys, t: Tables, b: nat)
    requires |t.usedR| == |sys.bankP| && Distinct(t.ratR) && Banked(sys.bankA, sys.bankP, t.ratR)
    requires forall p :: 0 <= p < |t.usedR| ==> (t.usedR[p] <==> p in t.ratR)
    ensures |UsedIn(sys.bankP, t.usedR, b)| == |InBank(sys.bankA, b)|
  {
    var f := (a: nat) => if a < |t.ratR| then t.ratR[a] else 0;
    var s, used := InBank(sys.bankA, b), UsedIn(sys.bankP, t.usedR, b);
    forall p | p in used
      ensures exists a :: a in s && f(a) == p
    {
      var a :| 0 <= a < |t.ratR| && t.ratR[a] == p;
      assert a in s && f(a) == p;
    }
    SameSize(s, used, f);
  }

  ghost function NewsIn(bankP: seq<nat>, log: seq<seq<Dest>>, b: nat): set<nat> {
    set p: nat | p < |bankP| && bankP[p] == b && NewOf(log, p)
  }

  lemma NewFile(sys: Sys, t: Tables, b: nat)
    requires Sized(t) && NewsDistinct(t.log)
    ensures |NewsIn(sys.bankP, t.log, b)| == |DestsInBank(sys.bankP, t.log, b)|
  {
    var f := (d: (nat, nat)) => if d.0 < |t.log| && d.1 < |t.log[d.0]| then t.log[d.0][d.1].prf else 0;
    var s, news := DestsInBank(sys.bankP, t.log, b), NewsIn(sys.bankP, t.log, b);
    forall p | p in news
      ensures exists d :: d in s && f(d) == p
    {
      var i :| 0 <= i < |t.log| && IsNew(t.log[i], p);
      var j := if t.log[i][0].prf == p then 0 else 1;
      assert (i, j) in s && f((i, j)) == p;
    }
    forall d | d in s
      ensures f(d) in news
    {
      assert Fits(t, t.log[d.0]);
      assert IsNew(t.log[d.0], f(d));
    }
    forall d, e | d in s && e in s && f(d) == f(e)
      ensures d == e
    {
    }
    hide DestsInBank, NewsIn, NewsDistinct;
    SameSize(s, news, f);
  }

  lemma SnapshotInjective(t: Tables, own: seq<Owner>, rats: seq<seq<nat>>, i: nat)
    requires Entries(t, own, rats) && i < |rats|
    ensures Distinct(rats[i])
  {
    forall a, b | 0 <= a < b < |rats[i]|
      ensures rats[i][a] != rats[i][b]
    {
      assert EntryOk(t, own, i, a, rats[i][a]) && EntryOk(t, own, i, b, rats[i][b]);
    }
  }

  /** The previous register of op i is gone from every later snapshot. */
  lemma PrevGone(t: Tables, own: seq<Owner>, rats: seq<seq<nat>>, i: nat, j: nat, m: nat, b: Reg)
    requires Sized(t) && Prevs(t, rats) && Entries(t, own, rats) && Latest(t, own, rats)
    requires i < |t.log| && j < |t.log[i]| && i < m < |rats| && b < |t.rat|
    ensures rats[m][b] != t.log[i][j].prev
  {
    var e := t.log[i][j];
    assert PrevsFrom(rats[i], t.log[i]);
    assert EntryOk(t, own, i, e.arch, rats[i][e.arch]);
    assert EntryOk(t, own, m, b, rats[m][b]);
    assert Since(t, own, i, rats[m][e.arch]);
  }

  lemma TwoPrevs(t: Tables, own: seq<Owner>, rats: seq<seq<nat>>, i: nat, j: nat, i': nat, j': nat)
    requires Sized(t) && Prevs(t, rats) && Entries(t, own, rats) && Latest(t, own, rats)
    requires i <= i' < |t.log| && j < |t.log[i]| && j' < |t.log[i']| && t.log[i][j].prev == t.log[i'][j'].prev
    ensures i == i' && j == j'
  {
    var e := t.log[i'][j'];
    assert PrevsFrom(rats[i'], t.log[i']);
    if i < i' {
      PrevGone(t, own, rats, i, j, i', e.arch);
    } else {
      SnapshotInjective(t, own, rats, i);
    }
  }

  lemma AllPrevsDistinct(t: Tables, own: seq<Owner>, rats: seq<seq<nat>>)
    requires Sized(t) && Prevs(t, rats) && Entries(t, own, rats) && Latest(t, own, rats)
    ensures PrevsDistinct(t.log)
  {
    forall i, j, i', j' | 0 <= i < |t.log| && 0 <= j < |t.log[i]| && 0 <= i' < |t.log| && 0 <= j' < |t.log[i']| &&
      t.log[i][j].prev == t.log[i'][j'].prev
      ensures i == i' && j == j'
    {
      if i <= i' {
        TwoPrevs(t, own, rats, i, j, i', j');
      } else {
        TwoPrevs(t, own, rats, i', j', i, j);
      }
    }
  }

  lemma AllNewsDistinct(t: Tables, own: seq<Owner>)
    requires Owned(t, own)
    ensures NewsDistinct(t.log)
  {
    forall i, j, i', j' | 0 <= i < |t.log| && 0 <= j < |t.log[i]| && 0 <= i' < |t.log| && 0 <= j' < |t.log[i']| &&
      t.log[i][j].prf == t.log[i'][j'].prf
      ensures i == i' && j == j'
    {
      DestOwner(t, own, i, j);
      DestOwner(t, own, i', j');
    }
  }

  /** A mapping is still current, or some younger op holds it as its previous register. */
  lemma {:induction false} MappingSurvives(t: Tables, rats: seq<seq<nat>>, i: nat, a: Reg)
    requires Sized(t) && Chain(t, rats) && Prevs(t, rats) && i < |rats| && a < |t.rat|
    ensures rats[i][a] in t.rat || PrevOf(t.log, rats[i][a])
    decreases |rats| - i
  {
    if i < |t.log| {
      assert PrevsFrom(rats[i], t.log[i]) && Fits(t, t.log[i]);
      assert rats[i + 1] == ApplyDests(rats[i], t.log[i]);
      if rats[i + 1][a] == rats[i][a] {
        MappingSurvives(t, rats, i + 1, a);
      } else {
        assert IsPrev(t.log[i], rats[i][a]);
      }
    } else {
      assert rats[i][a] == t.rat[a];
    }
  }

  lemma SpeculativeSplit(t: Tables, own: seq<Owner>, rats: seq<seq<nat>>)
    requires Sized(t) && Chain(t, rats) && Prevs(t, rats) && Owned(t, own) && BitsOwned(t, own)
    requires Entries(t, own, rats) && Latest(t, own, rats)
    ensures MappedOrPrevious(t)
  {
    forall p: nat | p < |t.used|
      ensures (t.used[p] <==> p in t.rat || PrevOf(t.log, p)) && !(p in t.rat && PrevOf(t.log, p))
    {
      if t.used[p] {
        UsedIsMappedOrPrev(t, own, rats, p);
      }
      MappedOrPrevIsUsed(t, own, rats, p);
    }
  }

  lemma UsedIsMappedOrPrev(t: Tables, own: seq<Owner>, rats: seq<seq<nat>>, p: nat)
    requires Sized(t) && Chain(t, rats) && Prevs(t, rats) && Owned(t, own) && BitsOwned(t, own) && p < |t.used|
    requires t.used[p]
    ensures p in t.rat || PrevOf(t.log, p)
  {
    assert OwnerOk(t, p, own[p]);
    match own[p]
    case Held(a) => MappingSurvives(t, rats, 0, a);
    case InFlight(id, j) =>
      var i := id - t.head;
      assert PrevsFrom(rats[i], t.log[i]) && Fits(t, t.log[i]);
      assert rats[i + 1] == ApplyDests(rats[i], t.log[i]);
      NewIsMapped(t, own, rats[i], i, j);
      MappingSurvives(t, rats, i + 1, t.log[i][j].arch);
  }

  lemma NewIsMapped(t: Tables, own: seq<Owner>, rat: seq<nat>, i: nat, j: nat)
    requires Sized(t) && Owned(t, own) && i < |t.log| && j < |t.log[i]| && |rat| == |t.rat|
    requires Fits(t, t.log[i]) && PrevsFrom(rat, t.log[i])
    ensures ApplyDests(rat, t.log[i])[t.log[i][j].arch] == t.log[i][j].prf
  {
  }

  lemma MappedOrPrevIsUsed(t: Tables, own: seq<Owner>, rats: seq<seq<nat>>, p: nat)
    requires Sized(t) && Chain(t, rats) && Prevs(t, rats) && Owned(t, own) && BitsOwned(t, own) && p < |t.used|
    requires Entries(t, own, rats) && Latest(t, own, rats)
    ensures p in t.rat || PrevOf(t.log, p) ==> t.used[p]
    ensures !(p in t.rat && PrevOf(t.log, p))
  {
    var n := |t.log|;
    if p in t.rat {
      var a :| 0 <= a < |t.rat| && t.rat[a] == p;
      assert EntryOk(t, own, n, a, rats[n][a]);
    }
    if PrevOf(t.log, p) {
      var i :| 0 <= i < n && IsPrev(t.log[i], p);
      var j := if t.log[i][0].prev == p then 0 else 1;
      assert PrevsFrom(rats[i], t.log[i]);
      assert EntryOk(t, own, i, t.log[i][j].arch, rats[i][t.log[i][j].arch]);
      forall a | 0 <= a < |t.rat|
        ensures t.rat[a] != p
      {
        PrevGone(t, own, rats, i, j, n, a);
      }
    }
  }

  lemma RetiredSplit(t: Tables, own: seq<Owner>)
    requires Sized(t) && Owned(t, own) && BitsOwned(t, own)
    ensures RetiredOrNew(t)
    ensures forall p :: 0 <= p < |t.usedR| ==> (t.usedR[p] <==> p in t.ratR)
  {
    forall p: nat | p < |t.used|
      ensures own[p].Held? <==> p in t.ratR
      ensures own[p].InFlight? <==> NewOf(t.log, p)
    {
      assert OwnerOk(t, p, own[p]);
      if own[p].InFlight? {
        assert IsNew(t.log[own[p].id - t.head], p);
      }
      if NewOf(t.log, p) {
        var i :| 0 <= i < |t.log| && IsNew(t.log[i], p);
        DestOwner(t, own, i, if t.log[i][0].prf == p then 0 else 1);
      }
    }
  }

  // ----- what the recovery path asserts, and exhaustion -----------------------------------------------------

  lemma FlushPopcount(sys: Sys, c: State, pc: Word, b: nat)
    requires Structured(sys, c)
    ensures |UsedIn(sys.bankP, Flush(c, pc).used, b)| == |InBank(sys.bankA, b)|
  {
    hide RenameInv, Conserved, UsedIn, InBank, FilesConserved;
    var own, rats :| DataInv(false, sys, c, own, rats);
    TablesConserved(sys, View(c), own, rats);
    FileConserved(sys, View(c), b);
  }

  /** The popcount assertions of every recovery hold, file by file, whether a mispredicted branch has retired first,
      alone or with its slot, or nothing has: as many registers in use as architectural ones. */
  lemma RecoveryPopcount(sys: Sys, c: State, b: nat)
    requires Reachable(sys, c)
    ensures sys.Wf() && Shape(sys, c)
    ensures Recovers(Decide(c.rob)) ==> |UsedIn(sys.bankP, Retire(sys, c).used, b)| == |InBank(sys.bankA, b)|
  {
    hide Reachable, Structured, Shape, UsedIn, InBank, Retire, Flush, Unflushed, WfProg, Decide;
    ReachableStructured(sys, c);
    UnflushedStructured(sys, c);
    if Recovers(Decide(c.rob)) {
      FlushPopcount(sys, Unflushed(sys, c), Decide(c.rob).pc, b);
    }
  }

  lemma FileConserved(sys: Sys, t: Tables, b: nat)
    requires Conserved(sys, t)
    ensures |UsedIn(sys.bankP, t.used, b)| == |InBank(sys.bankA, b)| + |DestsInBank(sys.bankP, t.log, b)|
    ensures |UsedIn(sys.bankP, t.usedR, b)| == |InBank(sys.bankA, b)|
  {
    hide UsedIn, InBank, DestsInBank;
    assert FileCounts(sys, t, b);
  }

  /** A file with more physical than architectural registers runs out only while one of its registers is a
      destination in flight: allocation never blocks on an empty reorder buffer. */
  lemma ExhaustionMeansInFlight(sys: Sys, c: State, b: nat)
    requires Reachable(sys, c)
    requires |InBank(sys.bankP, b)| > |InBank(sys.bankA, b)|
    requires |c.used| == |sys.bankP| && FirstFree(sys.bankP, c.used, b, 0) == -1
    ensures exists i, j :: 0 <= i < |c.rob| && 0 <= j < |c.rob[i].dests| &&
                           c.rob[i].dests[j].prf < |sys.bankP| && sys.bankP[c.rob[i].dests[j].prf] == b
  {
    hide Reachable, FilesConserved;
    FreeListConservation(sys, c);
    FileConserved(sys, View(c), b);
    assert UsedIn(sys.bankP, c.used, b) == InBank(sys.bankP, b);
    assert DestsInBank(sys.bankP, View(c).log, b) != {};
    var d :| d in DestsInBank(sys.bankP, View(c).log, b);
    assert c.rob[d.0].dests == View(c).log[d.0];
  }
}
