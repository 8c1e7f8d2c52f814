/** What every step keeps about the register alias tables and free lists, stated over the tables alone. */
module Renaming {
  import opened Isa
  import opened Core

  /** The alias tables and free vectors, and the destinations of the in-flight ops, oldest first;
      head is the allocation number of the oldest. */
  datatype Tables = Tables(rat: seq<nat>, ratR: seq<nat>, used: seq<bool>, usedR: seq<bool>,
                           log: seq<seq<Dest>>, head: int)

  ghost predicate Fits(t: Tables, ds: seq<Dest>) {
    DestsIn(|t.rat|, |t.used|, ds)
  }

  ghost predicate Sized(t: Tables) {
    && |t.ratR| == |t.rat| && |t.usedR| == |t.used|
    && (forall i :: 0 <= i < |t.log| ==> Fits(t, t.log[i]))
  }

  /** Allocation renames its destinations in the speculative table. */
  ghost function Push(t: Tables, ds: seq<Dest>): Tables
    requires Fits(t, ds)
  {
    t.(rat := ApplyDests(t.rat, ds), used := MarkNew(t.used, ds, true), log := t.log + [ds])
  }

  /** Retirement frees the previous registers and moves the new ones into the retired tables. */
  ghost function PopFront(t: Tables): Tables
    requires Sized(t) && |t.log| > 0
  {
    var ds := t.log[0];
    t.(ratR := ApplyDests(t.ratR, ds), used := MarkPrev(t.used, ds, false),
       usedR := MarkPrev(MarkNew(t.usedR, ds, true), ds, false), log := t.log[1..], head := t.head + 1)
  }

  /** Recovery copies the retired tables. */
  ghost function Recover(t: Tables): Tables {
    t.(rat := t.ratR, used := t.usedR, log := [], head := t.head + |t.log|)
  }

  // ----- the invariant ----------------------------------------------------------------------------

  /** Who holds a physical register: nobody, an architectural register's retired mapping, or destination j of the
      in-flight op with the given allocation number. */
  datatype Owner = Free | Held(a: Reg) | InFlight(id: int, j: nat)

  /** rats[i] is the alias table op i was renamed against: the retired table, updated by the older ops. */
  ghost predicate Chain(t: Tables, rats: seq<seq<nat>>)
    requires Sized(t)
  {
    && |rats| == |t.log| + 1
    && (forall i :: 0 <= i < |rats| ==> |rats[i]| == |t.rat|)
    && rats[0] == t.ratR && rats[|t.log|] == t.rat
    && (forall i :: 0 <= i < |t.log| ==> rats[i + 1] == ApplyDests(rats[i], t.log[i]))
  }

  ghost predicate PrevsFrom(rat: seq<nat>, ds: seq<Dest>) {
    && (forall j :: 0 <= j < |ds| ==> ds[j].arch < |rat| && ds[j].prev == rat[ds[j].arch])
    && (|ds| == 2 ==> ds[0].arch != ds[1].arch)
  }

  ghost predicate Prevs(t: Tables, rats: seq<seq<nat>>) {
    && |rats| > |t.log|
    && forall i :: 0 <= i < |t.log| ==> PrevsFrom(rats[i], t.log[i])
  }

  /** Destination j of in-flight op i has this new register and this architectural register. */
  ghost predicate IsDest(t: Tables, id: int, j: nat, p: nat, a: Reg) {
    var i := id - t.head;
    0 <= i < |t.log| && j < |t.log[i]| && t.log[i][j].prf == p && t.log[i][j].arch == a
  }

  ghost predicate OwnerOk(t: Tables, p: nat, o: Owner) {
    match o
    case Free => true
    case Held(a) => a < |t.ratR| && t.ratR[a] == p
    case InFlight(id, j) =>
      && t.head <= id < t.head + |t.log|
      && j < |t.log[id - t.head]| && t.log[id - t.head][j].prf == p
  }

  ghost predicate DestsOwned(ds: seq<Dest>, id: int, own: seq<Owner>) {
    forall j :: 0 <= j < |ds| ==> ds[j].prf < |own| && own[ds[j].prf] == InFlight(id, j)
  }

  ghost predicate Owned(t: Tables, own: seq<Owner>) {
    && |own| == |t.used|
    && (forall p :: 0 <= p < |own| ==> OwnerOk(t, p, own[p]))
    && (forall a :: 0 <= a < |t.ratR| ==> t.ratR[a] < |own| && own[t.ratR[a]] == Held(a))
    && (forall i :: 0 <= i < |t.log| ==> DestsOwned(t.log[i], t.head + i, own))
  }

  ghost predicate BitsOwned(t: Tables, own: seq<Owner>) {
    && |own| == |t.used| == |t.usedR|
    && forall p :: 0 <= p < |own| ==> (t.used[p] <==> !own[p].Free?) && (t.usedR[p] <==> own[p].Held?)
  }

  /** Before op i, register p is a's: its retired mapping, or a destination of an op older than i that writes a. */
  ghost predicate EntryOk(t: Tables, own: seq<Owner>, i: nat, a: Reg, p: nat) {
    && p < |own|
    && match own[p]
       case Free => false
       case Held(b) => b == a
       case InFlight(id, j) => id < t.head + i && IsDest(t, id, j, p, a)
  }

  ghost predicate Entries(t: Tables, own: seq<Owner>, rats: seq<seq<nat>>) {
    && (forall i :: 0 <= i < |rats| ==> |rats[i]| == |t.rat|)
    && forall i, a :: 0 <= i < |rats| && 0 <= a < |t.rat| ==> EntryOk(t, own, i, a, rats[i][a])
  }

  /** After op k has written a, the entry for a is a destination of op k or of a younger op. */
  ghost predicate Since(t: Tables, own: seq<Owner>, k: nat, p: nat) {
    p < |own| && own[p].InFlight? && own[p].id >= t.head + k
  }

  ghost predicate Latest(t: Tables, own: seq<Owner>, rats: seq<seq<nat>>)
    requires Sized(t)
  {
    && |rats| == |t.log| + 1
    && (forall i :: 0 <= i < |rats| ==> |rats[i]| == |t.rat|)
    && forall i, k, j :: 0 <= k < i < |rats| && 0 <= j < |t.log[k]| ==> Since(t, own, k, rats[i][t.log[k][j].arch])
  }

  ghost predicate Banked(bankA: seq<nat>, bankP: seq<nat>, rat: seq<nat>) {
    && |bankA| == |rat|
    && forall a :: 0 <= a < |rat| ==> rat[a] < |bankP| && bankP[rat[a]] == bankA[a]
  }

  ghost predicate RenameInv(sys: Sys, t: Tables, own: seq<Owner>, rats: seq<seq<nat>>) {
    && Sized(t) && |sys.bankP| == |t.used|
    && Chain(t, rats) && Prevs(t, rats)
    && Owned(t, own) && BitsOwned(t, own)
    && Entries(t, own, rats) && Latest(t, own, rats)
    && (forall i :: 0 <= i < |rats| ==> Banked(sys.bankA, sys.bankP, rats[i]))
  }

  // ----- allocation -------------------------------------------------------------------------------

  /** Fresh destinations: free registers of the right bank, distinct, with the current mappings as previous ones. */
  ghost predicate Fresh(sys: Sys, t: Tables, ds: seq<Dest>) {
    && Fits(t, ds) && PrevsFrom(t.rat, ds) && |sys.bankP| == |t.used| && |sys.bankA| == |t.rat|
    && (forall j :: 0 <= j < |ds| ==> !t.used[ds[j].prf] && sys.bankP[ds[j].prf] == sys.bankA[ds[j].arch])
    && (|ds| == 2 ==> ds[0].prf != ds[1].prf)
  }

  lemma RenameGivesFresh(sys: Sys, t: Tables, ds: seq<Reg>)
    requires |t.used| == |sys.bankP| && |t.rat| == |sys.bankA| && |ds| <= 2
    requires forall j :: 0 <= j < |ds| ==> ds[j] < |t.rat|
    requires |ds| == 2 ==> ds[0] != ds[1]
    requires forall a :: 0 <= a < |t.rat| ==> t.rat[a] < |t.used|
    requires Rename(sys, t.rat, t.used, ds).Some?
    ensures var r := Rename(sys, t.rat, t.used, ds).value;
            Fresh(sys, t, r) && |r| == |ds| && forall j :: 0 <= j < |r| ==> r[j].arch == ds[j]
  {
  }

  ghost function OwnPush(own: seq<Owner>, id: int, ds: seq<Dest>): (r: seq<Owner>)
    ensures |r| == |own|
  {
    seq(|own|, p requires 0 <= p < |own| =>
      if |ds| > 0 && ds[0].prf == p then InFlight(id, 0)
      else if |ds| > 1 && ds[1].prf == p then InFlight(id, 1)
      else own[p])
  }

  lemma PushOwned(sys: Sys, t: Tables, ds: seq<Dest>, own: seq<Owner>)
    requires Sized(t) && Fresh(sys, t, ds) && Owned(t, own) && BitsOwned(t, own)
    ensures var t' := Push(t, ds); var own' := OwnPush(own, t.head + |t.log|, ds);
            Owned(t', own') && BitsOwned(t', own')
  {
    var t' := Push(t, ds);
    var own' := OwnPush(own, t.head + |t.log|, ds);
    forall i | 0 <= i < |t'.log|
      ensures DestsOwned(t'.log[i], t'.head + i, own')
    {
      if i < |t.log| {
        PushDests(sys, t, ds, own, i);
      }
    }
    forall p | 0 <= p < |own'|
      ensures OwnerOk(t', p, own'[p])
    {
      PushOwner(t, ds, own, p);
    }
  }

  lemma PushDests(sys: Sys, t: Tables, ds: seq<Dest>, own: seq<Owner>, i: nat)
    requires Sized(t) && Fresh(sys, t, ds) && BitsOwned(t, own) && i < |t.log|
    requires DestsOwned(t.log[i], t.head + i, own)
    ensures DestsOwned(t.log[i], t.head + i, OwnPush(own, t.head + |t.log|, ds))
  {
  }

  lemma PushOwner(t: Tables, ds: seq<Dest>, own: seq<Owner>, p: nat)
    requires Fits(t, ds) && p < |own| && OwnerOk(t, p, own[p])
    ensures OwnerOk(Push(t, ds), p, OwnPush(own, t.head + |t.log|, ds)[p])
  {
  }

  lemma PushEntry(sys: Sys, t: Tables, ds: seq<Dest>, own: seq<Owner>, i: nat, a: Reg, p: nat)
    requires Sized(t) && Fresh(sys, t, ds) && Owned(t, own) && BitsOwned(t, own)
    requires EntryOk(t, own, i, a, p)
    ensures EntryOk(Push(t, ds), OwnPush(own, t.head + |t.log|, ds), i, a, p)
  {
  }

  lemma PushChain(sys: Sys, t: Tables, ds: seq<Dest>, rats: seq<seq<nat>>)
    requires Sized(t) && Fresh(sys, t, ds) && Chain(t, rats) && Prevs(t, rats)
    ensures Chain(Push(t, ds), rats + [ApplyDests(t.rat, ds)]) && Prevs(Push(t, ds), rats + [ApplyDests(t.rat, ds)])
  {
  }

  lemma PushEntries(sys: Sys, t: Tables, ds: seq<Dest>, own: seq<Owner>, rats: seq<seq<nat>>)
    requires Sized(t) && Fresh(sys, t, ds) && Owned(t, own) && BitsOwned(t, own) && Chain(t, rats)
    requires Entries(t, own, rats)
    ensures Entries(Push(t, ds), OwnPush(own, t.head + |t.log|, ds), rats + [ApplyDests(t.rat, ds)])
  {
    hide EntryOk, OwnPush, Owned, BitsOwned, Chain, ApplyDests, MarkNew;
    var t' := Push(t, ds);
    var own' := OwnPush(own, t.head + |t.log|, ds);
    var rats' := rats + [t'.rat];
    assert |rats| == |t.log| + 1 && rats[|t.log|] == t.rat by { LastSnapshot(t, rats); }
    forall i, a | 0 <= i < |rats'| && 0 <= a < |t'.rat|
      ensures EntryOk(t', own', i, a, rats'[i][a])
    {
      PushEntryAt(sys, t, ds, own, rats, i, a);
    }
  }

  lemma LastSnapshot(t: Tables, rats: seq<seq<nat>>)
    requires Sized(t) && Chain(t, rats)
    ensures |rats| == |t.log| + 1 && rats[|t.log|] == t.rat
  {
  }

  lemma PushEntryAt(sys: Sys, t: Tables, ds: seq<Dest>, own: seq<Owner>, rats: seq<seq<nat>>, i: nat, a: Reg)
    requires Sized(t) && Fresh(sys, t, ds) && Owned(t, own) && BitsOwned(t, own) && Entries(t, own, rats)
    requires |rats| == |t.log| + 1 && rats[|t.log|] == t.rat && i <= |rats| && a < |t.rat|
    ensures EntryOk(Push(t, ds), OwnPush(own, t.head + |t.log|, ds), i, a, (rats + [ApplyDests(t.rat, ds)])[i][a])
  {
    hide EntryOk, OwnPush, Owned, BitsOwned, ApplyDests, MarkNew, Fresh;
    if i < |rats| {
      assert EntryOk(t, own, i, a, rats[i][a]);
      PushEntry(sys, t, ds, own, i, a, rats[i][a]);
    } else {
      assert EntryOk(t, own, |t.log|, a, rats[|t.log|][a]);
      PushNewEntry(sys, t, ds, own, a);
    }
  }

  lemma PushNewEntry(sys: Sys, t: Tables, ds: seq<Dest>, own: seq<Owner>, a: Reg)
    requires Sized(t) && Fresh(sys, t, ds) && Owned(t, own) && BitsOwned(t, own) && a < |t.rat|
    requires EntryOk(t, own, |t.log|, a, t.rat[a])
    ensures EntryOk(Push(t, ds), OwnPush(own, t.head + |t.log|, ds), |t.log| + 1, a, ApplyDests(t.rat, ds)[a])
  {
    PushEntry(sys, t, ds, own, |t.log|, a, t.rat[a]);
  }

  lemma PushLatest(sys: Sys, t: Tables, ds: seq<Dest>, own: seq<Owner>, rats: seq<seq<nat>>)
    requires Sized(t) && Fresh(sys, t, ds) && BitsOwned(t, own) && Chain(t, rats)
    requires Latest(t, own, rats)
    ensures Latest(Push(t, ds), OwnPush(own, t.head + |t.log|, ds), rats + [ApplyDests(t.rat, ds)])
  {
    var t' := Push(t, ds);
    var rats' := rats + [t'.rat];
    forall i, k, j | 0 <= k < i < |rats'| && 0 <= j < |t'.log[k]|
      ensures Since(t', OwnPush(own, t.head + |t.log|, ds), k, rats'[i][t'.log[k][j].arch])
    {
      if i <= |t.log| {
        PushSince(sys, t, ds, own, k, rats[i][t.log[k][j].arch]);
      } else {
        PushLatestRow(sys, t, ds, own, rats, k, j);
      }
    }
  }

  lemma PushLatestRow(sys: Sys, t: Tables, ds: seq<Dest>, own: seq<Owner>, rats: seq<seq<nat>>, k: nat, j: nat)
    requires Sized(t) && Fresh(sys, t, ds) && BitsOwned(t, own) && Chain(t, rats) && Latest(t, own, rats)
    requires k <= |t.log| && j < |Push(t, ds).log[k]|
    ensures Since(Push(t, ds), OwnPush(own, t.head + |t.log|, ds), k, ApplyDests(t.rat, ds)[Push(t, ds).log[k][j].arch])
  {
    if k < |t.log| {
      assert Since(t, own, k, rats[|t.log|][t.log[k][j].arch]);
      PushSinceNew(sys, t, ds, own, k, t.log[k][j].arch);
    }
  }

  lemma PushSince(sys: Sys, t: Tables, ds: seq<Dest>, own: seq<Owner>, k: nat, p: nat)
    requires Sized(t) && Fresh(sys, t, ds) && BitsOwned(t, own) && Since(t, own, k, p)
    ensures Since(Push(t, ds), OwnPush(own, t.head + |t.log|, ds), k, p)
  {
  }

  lemma PushSinceNew(sys: Sys, t: Tables, ds: seq<Dest>, own: seq<Owner>, k: nat, a: Reg)
    requires Sized(t) && Fresh(sys, t, ds) && BitsOwned(t, own) && a < |t.rat| && k < |t.log|
    requires Since(t, own, k, t.rat[a])
    ensures Since(Push(t, ds), OwnPush(own, t.head + |t.log|, ds), k, ApplyDests(t.rat, ds)[a])
  {
  }

  lemma PushBanked(sys: Sys, t: Tables, ds: seq<Dest>)
    requires Fresh(sys, t, ds) && Banked(sys.bankA, sys.bankP, t.rat)
    ensures Banked(sys.bankA, sys.bankP, ApplyDests(t.rat, ds))
  {
  }

  lemma PushKeeps(sys: Sys, t: Tables, ds: seq<Dest>, own: seq<Owner>, rats: seq<seq<nat>>)
    requires RenameInv(sys, t, own, rats) && Fresh(sys, t, ds)
    ensures RenameInv(sys, Push(t, ds), OwnPush(own, t.head + |t.log|, ds), rats + [ApplyDests(t.rat, ds)])
  {
    hide OwnPush, Entries, Latest, Owned, BitsOwned, PrevsFrom, Banked;
    PushChain(sys, t, ds, rats);
    PushOwned(sys, t, ds, own);
    PushEntries(sys, t, ds, own, rats);
    PushLatest(sys, t, ds, own, rats);
    PushBanked(sys, t, ds);
  }

  // ----- retirement -------------------------------------------------------------------------------

  ghost function OwnPop(own: seq<Owner>, ds: seq<Dest>): (r: seq<Owner>)
    ensures |r| == |own|
  {
    seq(|own|, p requires 0 <= p < |own| =>
      if |ds| > 0 && ds[0].prf == p then Held(ds[0].arch)
      else if |ds| > 1 && ds[1].prf == p then Held(ds[1].arch)
      else if IsPrev(ds, p) then Free
      else own[p])
  }

  /** The head's new registers are its own; its previous registers are the retired mappings it replaces. */
  lemma HeadOwners(t: Tables, own: seq<Owner>, j: nat)
    requires Sized(t) && |t.log| > 0 && PrevsFrom(t.ratR, t.log[0]) && Owned(t, own)
    requires j < |t.log[0]|
    ensures var e := t.log[0][j];
            e.prf < |own| && own[e.prf] == InFlight(t.head, j) && e.prev == t.ratR[e.arch]
                && own[e.prev] == Held(e.arch)
  {
    assert DestsOwned(t.log[0], t.head + 0, own);
  }

  /** New and previous registers of the head, all different. */
  ghost predicate HeadApart(own: seq<Owner>, ds: seq<Dest>, head: int) {
    && |ds| <= 2 && (|ds| == 2 ==> ds[0].arch != ds[1].arch)
    && forall j :: 0 <= j < |ds| ==>
      && ds[j].prf < |own| && own[ds[j].prf] == InFlight(head, j)
      && ds[j].prev < |own| && own[ds[j].prev] == Held(ds[j].arch)
  }

  lemma HeadIsApart(t: Tables, own: seq<Owner>)
    requires Sized(t) && |t.log| > 0 && PrevsFrom(t.ratR, t.log[0]) && Owned(t, own)
    ensures HeadApart(own, t.log[0], t.head)
  {
    forall j | 0 <= j < |t.log[0]|
      ensures var e := t.log[0][j]; e.prf < |own| && own[e.prf] == InFlight(t.head, j) && own[e.prev] == Held(e.arch)
    {
      HeadOwners(t, own, j);
    }
  }

  lemma PopBits(t: Tables, own: seq<Owner>)
    requires Sized(t) && |t.log| > 0 && HeadApart(own, t.log[0], t.head) && BitsOwned(t, own)
    ensures BitsOwned(PopFront(t), OwnPop(own, t.log[0]))
  {
  }

  lemma PopOwned(t: Tables, own: seq<Owner>)
    requires Sized(t) && HeadApartOf(t, own) && Owned(t, own)
    ensures Owned(PopFront(t), OwnPop(own, t.log[0]))
  {
    var t' := PopFront(t);
    var ds := t.log[0];
    var own' := OwnPop(own, ds);
    forall i | 0 <= i < |t'.log|
      ensures DestsOwned(t'.log[i], t'.head + i, own')
    {
      PopDests(t, own, i);
    }
    forall a | 0 <= a < |t'.ratR|
      ensures t'.ratR[a] < |own'| && own'[t'.ratR[a]] == Held(a)
    {
      assert own[t.ratR[a]] == Held(a);
    }
    forall p | 0 <= p < |own'|
      ensures OwnerOk(t', p, own'[p])
    {
      PopOwner(t, own, p);
    }
  }

  lemma PopDests(t: Tables, own: seq<Owner>, i: nat)
    requires Sized(t) && HeadApartOf(t, own) && Owned(t, own) && i + 1 < |t.log|
    ensures DestsOwned(t.log[i + 1], t.head + 1 + i, OwnPop(own, t.log[0]))
  {
    assert DestsOwned(t.log[i + 1], t.head + (i + 1), own);
  }

  ghost predicate HeadApartOf(t: Tables, own: seq<Owner>) {
    |t.log| > 0 && PrevsFrom(t.ratR, t.log[0]) && HeadApart(own, t.log[0], t.head)
  }

  lemma PopOwner(t: Tables, own: seq<Owner>, p: nat)
    requires Sized(t) && HeadApartOf(t, own) && p < |own| && OwnerOk(t, p, own[p])
    ensures OwnerOk(PopFront(t), p, OwnPop(own, t.log[0])[p])
  {
  }

  lemma PopEntry(t: Tables, own: seq<Owner>, i: nat, a: Reg, p: nat)
    requires Sized(t) && HeadApartOf(t, own) && Owned(t, own) && 1 <= i
    requires EntryOk(t, own, i, a, p)
    requires forall j :: 0 <= j < |t.log[0]| && t.log[0][j].arch == a ==> Since(t, own, 0, p)
    ensures EntryOk(PopFront(t), OwnPop(own, t.log[0]), i - 1, a, p)
  {
    hide Owned, Sized;
  }

  lemma SincePop(t: Tables, own: seq<Owner>, k: nat, p: nat)
    requires Sized(t) && HeadApartOf(t, own) && Since(t, own, k + 1, p)
    ensures Since(PopFront(t), OwnPop(own, t.log[0]), k, p)
  {
  }

  lemma PopChain(t: Tables, rats: seq<seq<nat>>)
    requires Sized(t) && |t.log| > 0 && Chain(t, rats) && Prevs(t, rats)
    ensures Chain(PopFront(t), rats[1..]) && Prevs(PopFront(t), rats[1..])
  {
    var t' := PopFront(t);
    assert rats[0 + 1] == ApplyDests(rats[0], t.log[0]);
    forall i | 0 <= i < |t'.log|
      ensures PrevsFrom(rats[1..][i], t'.log[i]) && rats[1..][i + 1] == ApplyDests(rats[1..][i], t'.log[i])
    {
      assert PrevsFrom(rats[i + 1], t.log[i + 1]);
      assert rats[i + 1 + 1] == ApplyDests(rats[i + 1], t.log[i + 1]);
    }
  }

  lemma PopEntries(t: Tables, own: seq<Owner>, rats: seq<seq<nat>>)
    requires Sized(t) && HeadApartOf(t, own) && Owned(t, own)
    requires Entries(t, own, rats) && Latest(t, own, rats)
    ensures Entries(PopFront(t), OwnPop(own, t.log[0]), rats[1..])
  {
    forall i, a | 0 <= i < |rats[1..]| && 0 <= a < |t.rat|
      ensures EntryOk(PopFront(t), OwnPop(own, t.log[0]), i, a, rats[1..][i][a])
    {
      PopEntry(t, own, i + 1, a, rats[i + 1][a]);
    }
  }

  lemma PopLatest(t: Tables, own: seq<Owner>, rats: seq<seq<nat>>)
    requires Sized(t) && HeadApartOf(t, own) && Latest(t, own, rats)
    ensures Latest(PopFront(t), OwnPop(own, t.log[0]), rats[1..])
  {
    var t' := PopFront(t);
    forall i, k, j | 0 <= k < i < |rats[1..]| && 0 <= j < |t'.log[k]|
      ensures Since(t', OwnPop(own, t.log[0]), k, rats[1..][i][t'.log[k][j].arch])
    {
      SincePop(t, own, k, rats[i + 1][t.log[k + 1][j].arch]);
    }
  }

  lemma PopKeeps(sys: Sys, t: Tables, own: seq<Owner>, rats: seq<seq<nat>>)
    requires RenameInv(sys, t, own, rats) && |t.log| > 0
    ensures RenameInv(sys, PopFront(t), OwnPop(own, t.log[0]), rats[1..])
  {
    hide OwnPop, Entries, Latest, Owned, BitsOwned, HeadApart, PrevsFrom, Banked;
    assert PrevsFrom(rats[0], t.log[0]);
    HeadIsApart(t, own);
    PopChain(t, rats);
    PopOwned(t, own);
    PopBits(t, own);
    PopEntries(t, own, rats);
    PopLatest(t, own, rats);
  }

  // ----- recovery ---------------------------------------------------------------------------------

  ghost function OwnRecover(own: seq<Owner>): (r: seq<Owner>)
    ensures |r| == |own|
  {
    seq(|own|, p requires 0 <= p < |own| => if own[p].Held? then own[p] else Free)
  }

  lemma RecoverKeeps(sys: Sys, t: Tables, own: seq<Owner>, rats: seq<seq<nat>>)
    requires RenameInv(sys, t, own, rats)
    ensures RenameInv(sys, Recover(t), OwnRecover(own), [t.ratR])
  {
    assert Banked(sys.bankA, sys.bankP, rats[0]);
  }
}
