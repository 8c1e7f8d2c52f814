/** Allocation, retirement and recovery keep the data invariant. */
module DataSteps {
  import opened Isa
  import opened Core
  import opened Renaming
  import opened Dataflow

  // ----- allocate -----------------------------------------------------------------------------------

  ghost predicate Unused(t: Tables, ds: seq<Dest>) {
    forall p :: 0 <= p < |t.used| && IsNew(ds, p) ==> !t.used[p]
  }

  lemma UsedNotNew(t: Tables, own: seq<Owner>, ds: seq<Dest>, p: nat)
    requires BitsOwned(t, own) && Unused(t, ds) && p < |own| && !own[p].Free?
    ensures !IsNew(ds, p)
  {
  }

  /** Clearing the valid bits of unused registers disturbs no op in flight. */
  lemma AllocateOpKeeps(fit: bool, c: State, own: seq<Owner>, rats: seq<seq<nat>>, ds: seq<Dest>, k: nat)
    requires OpsOk(fit, c) && Owned(View(c), own) && BitsOwned(View(c), own) && Entries(View(c), own, rats)
    requires SrcsOk(c.rob, rats) && Unused(View(c), ds) && DestsIn(|c.rat|, |c.valid|, ds) && |c.valid| == |c.prf|
    requires k < |c.rob|
    ensures OpOk(fit, |c.rat|, c.prf, MarkNew(c.valid, ds, false), c.mem, c.rob[k])
  {
    var op := c.rob[k];
    assert OpOk(fit, |c.rat|, c.prf, c.valid, c.mem, op);
    forall j | 0 <= j < |op.dests|
      ensures !IsNew(ds, op.dests[j].prf)
    {
      DestOwner(View(c), own, k, j);
      UsedNotNew(View(c), own, ds, op.dests[j].prf);
    }
    forall x | 0 <= x < |op.srcs|
      ensures !IsNew(ds, op.srcs[x])
    {
      SourceOwner(View(c), c.rob, own, rats, k, x);
      UsedNotNew(View(c), own, ds, op.srcs[x]);
    }
    OpFrame(fit, |c.rat|, c.prf, c.prf, c.valid, MarkNew(c.valid, ds, false), c.mem, op);
  }

  lemma AllocateFresh(sys: Sys, c: State)
    requires sys.Wf() && Shape(sys, c) && CanAllocate(sys, c)
    ensures var ds := AllocDests(sys, c);
            Fresh(sys, View(c), ds) && Unused(View(c), ds) && View(Allocate(sys, c)) == Push(View(c), ds)
            && |ds| == |Dests(c.fq[0].inst)| && forall j :: 0 <= j < |ds| ==> ds[j].arch == Dests(c.fq[0].inst)[j]
  {
    var ds := AllocDests(sys, c);
    var d := Allocate(sys, c);
    RenameGivesFresh(sys, View(c), Dests(c.fq[0].inst));
    assert DestLog(d.rob) == DestLog(c.rob) + [ds];
  }

  lemma TableAppend(tbl: seq<int>, rob: seq<Op>, head: int, op: Op)
    requires TableOk(tbl, rob, head)
    requires op.inst.Load? ==> 0 <= op.ldSlot < |tbl| && tbl[op.ldSlot] == -1
    ensures TableOk(if op.inst.Load? then tbl[op.ldSlot := head + |rob|] else tbl, rob + [op], head)
  {
    var tbl' := if op.inst.Load? then tbl[op.ldSlot := head + |rob|] else tbl;
    forall s | 0 <= s < |tbl|
      ensures SlotOk(rob + [op], head, s, tbl'[s])
    {
      assert SlotOk(rob, head, s, tbl[s]);
    }
    forall i | 0 <= i < |rob| + 1
      ensures LoadListed((rob + [op])[i], head + i, tbl')
    {
      if i < |rob| {
        assert LoadListed(rob[i], head + i, tbl);
      }
    }
  }

  lemma AgedAppend(rob: seq<Op>, cycle: nat, op: Op)
    requires Aged(rob, cycle) && op.alloc == cycle
    ensures Aged(rob + [op], cycle)
  {
  }

  lemma AllocateRetired(sys: Sys, c: State, own: seq<Owner>)
    requires sys.Wf() && Shape(sys, c) && CanAllocate(sys, c) && RetiredOk(c)
    requires Owned(View(c), own) && BitsOwned(View(c), own)
    ensures RetiredOk(Allocate(sys, c))
  {
    var ds := AllocDests(sys, c);
    AllocateFresh(sys, c);
    forall a | 0 <= a < |c.ratR|
      ensures !IsNew(ds, c.ratR[a])
    {
      UsedNotNew(View(c), own, ds, c.ratR[a]);
    }
  }

  lemma AllocateValid(sys: Sys, c: State)
    requires sys.Wf() && Shape(sys, c) && CanAllocate(sys, c) && ValidUsed(c)
    ensures ValidUsed(Allocate(sys, c))
  {
    hide Sys.Wf, CanAllocate;
  }

  lemma AllocateShape(sys: Sys, c: State)
    requires sys.Wf() && Shape(sys, c) && CanAllocate(sys, c)
    ensures Shape(sys, Allocate(sys, c))
  {
    var d := Allocate(sys, c);
    AllocateFresh(sys, c);
    forall i | 0 <= i < |d.rob|
      ensures OpShape(sys, d, d.rob[i])
    {
      if i < |c.rob| {
        assert OpShape(sys, c, c.rob[i]);
      }
    }
  }

  lemma AllocateTable(sys: Sys, c: State)
    requires sys.Wf() && Shape(sys, c) && CanAllocate(sys, c)
    requires TableOk(c.ldTbl, c.rob, c.HeadId()) && Aged(c.rob, c.cycle)
    ensures var d := Allocate(sys, c); TableOk(d.ldTbl, d.rob, d.HeadId()) && Aged(d.rob, d.cycle)
  {
    hide TableOk, Aged, Shape, Sys.Wf;
    TableAppend(c.ldTbl, c.rob, c.HeadId(), AllocOp(sys, c));
    AgedAppend(c.rob, c.cycle, AllocOp(sys, c));
  }

  ghost function OwnAllocate(sys: Sys, c: State, own: seq<Owner>): seq<Owner>
    requires sys.Wf() && Shape(sys, c) && CanAllocate(sys, c)
  {
    OwnPush(own, c.nextId, AllocDests(sys, c))
  }

  lemma AllocateRenaming(sys: Sys, c: State, own: seq<Owner>, rats: seq<seq<nat>>)
    requires sys.Wf() && Shape(sys, c) && CanAllocate(sys, c) && RenameInv(sys, View(c), own, rats)
    ensures RenameInv(sys, View(Allocate(sys, c)), OwnAllocate(sys, c, own), rats + [Allocate(sys, c).rat])
  {
    hide RenameInv, Fresh, Shape, Unused, Sys.Wf, CanAllocate, Allocate, AllocDests;
    AllocateFresh(sys, c);
    PushKeeps(sys, View(c), AllocDests(sys, c), own, rats);
  }

  lemma AllocateKeeps(fit: bool, sys: Sys, c: State, own: seq<Owner>, rats: seq<seq<nat>>)
    returns (own': seq<Owner>, rats': seq<seq<nat>>)
    requires sys.Wf() && DataInv(fit, sys, c, own, rats) && CanAllocate(sys, c)
    ensures DataInv(fit, sys, Allocate(sys, c), own', rats')
  {
    hide OpsOk, RetiredOk, TableOk, Aged, Shape, Sys.Wf, ValidUsed;
    own' := OwnAllocate(sys, c, own);
    rats' := rats + [Allocate(sys, c).rat];
    AllocateRenaming(sys, c, own, rats);
    AllocateTable(sys, c);
    AllocateRetired(sys, c, own);
    AllocateValid(sys, c);
    AllocateShape(sys, c);
    AllocateOps(fit, sys, c, own, rats);
  }

  lemma AllocateOps(fit: bool, sys: Sys, c: State, own: seq<Owner>, rats: seq<seq<nat>>)
    requires sys.Wf() && Shape(sys, c) && CanAllocate(sys, c)
    requires OpsOk(fit, c) && Owned(View(c), own) && BitsOwned(View(c), own) && Entries(View(c), own, rats)
    requires SrcsOk(c.rob, rats) && |rats| == |c.rob| + 1 && rats[|c.rob|] == c.rat
    ensures OpsOk(fit, Allocate(sys, c)) && SrcsOk(Allocate(sys, c).rob, rats + [Allocate(sys, c).rat])
  {
    var d := Allocate(sys, c);
    AllocateFresh(sys, c);
    AllocatedOp(fit, sys, c);
    forall k | 0 <= k < |d.rob|
      ensures OpOk(fit, |d.rat|, d.prf, d.valid, d.mem, d.rob[k])
    {
      if k < |c.rob| {
        AllocateOpKeeps(fit, c, own, rats, AllocDests(sys, c), k);
      }
    }
    SrcsAppend(c.rob, rats, d.rob[|c.rob|], d.rat);
  }

  lemma SrcsAppend(rob: seq<Op>, rats: seq<seq<nat>>, op: Op, rat: seq<nat>)
    requires SrcsOk(rob, rats) && |rats| == |rob| + 1 && SrcsFrom(rats[|rob|], op)
    ensures SrcsOk(rob + [op], rats + [rat])
  {
    forall k | 0 <= k < |rob| + 1
      ensures SrcsFrom((rats + [rat])[k], (rob + [op])[k])
    {
      if k < |rob| {
        assert SrcsFrom(rats[k], rob[k]);
      }
    }
  }

  lemma AllocatedOp(fit: bool, sys: Sys, c: State)
    requires sys.Wf() && Shape(sys, c) && CanAllocate(sys, c)
    ensures var d := Allocate(sys, c); var op := d.rob[|c.rob|];
            OpOk(fit, |d.rat|, d.prf, d.valid, d.mem, op) && SrcsFrom(c.rat, op)
  {
    assert |c.fq| > 0;
    hide Executed, Rename, ApplyDests, Push, Unused, CanAllocate, WfProg, WfInst, OpShape, OpWf, AllocDests;
    AllocateShape(sys, c);
    var d := Allocate(sys, c);
    var op := d.rob[|c.rob|];
    FetchedWf(sys, c);
    assert OpShape(sys, d, op);
    NewOpWf(sys, d, op);
  }

  lemma FetchedWf(sys: Sys, c: State)
    requires sys.Wf() && Shape(sys, c) && |c.fq| > 0
    ensures WfInst(|c.rat|, c.fq[0].inst)
    ensures forall k :: 0 <= k < |c.fq[0].inst.srcs| ==> c.fq[0].inst.srcs[k] < |c.rat|
  {
    assert WfInst(|sys.bankA|, sys.prog(c.fq[0].pc));
  }

  lemma NewOpWf(sys: Sys, d: State, op: Op)
    requires OpShape(sys, d, op) && op.stage == Waiting && WfInst(|d.rat|, op.inst)
    ensures OpWf(|d.rat|, |d.prf|, op)
  {
    hide WfInst;
  }

  // ----- retire -------------------------------------------------------------------------------------

  lemma RetireMarksBoth(bits: seq<bool>, ds: seq<Dest>, own: seq<Owner>, head: int)
    requires HeadApart(own, ds, head) && |own| == |bits|
    ensures RetireMarks(bits, ds) == MarkPrev(MarkNew(bits, ds, true), ds, false)
  {
  }

  lemma RetireView(sys: Sys, c: State, own: seq<Owner>)
    requires sys.Wf() && Shape(sys, c) && |c.rob| > 0 && c.rob[0].stage == Complete && Sized(View(c))
    requires HeadApart(own, c.rob[0].dests, c.HeadId()) && |own| == |c.usedR|
    ensures View(RetireHead(sys, c)) == PopFront(View(c))
  {
    hide Remaining, Shape, Sys.Wf, HeadApart;
    var d := RetireHead(sys, c);
    RetireMarksBoth(c.usedR, c.rob[0].dests, own, c.HeadId());
    assert DestLog(d.rob) == DestLog(c.rob)[1..];
  }

  /** If the store raises no violation, every finished load lies in another block. */
  lemma NoViolation(c: State, j: nat)
    requires TableOk(c.ldTbl, c.rob, c.HeadId()) && Aged(c.rob, c.cycle) && 0 < j < |c.rob| && !Violation(c, c.rob[0])
    requires c.rob[j].inst.Load? && c.rob[j].stage == Complete
    ensures Block(c.rob[j].ea) != Block(c.rob[0].ea)
  {
    assert LoadListed(c.rob[j], c.HeadId() + j, c.ldTbl);
    assert !Conflicts(c, c.rob[0], c.ldTbl[c.rob[j].ldSlot]);
  }

  lemma ViolationFlags(c: State, j: nat)
    requires TableOk(c.ldTbl, c.rob, c.HeadId()) && 0 < j < |c.rob| && c.rob[j].inst.Load?
    ensures FlagLoads(c)[j].loadExc
  {
    assert LoadListed(c.rob[j], c.HeadId() + j, c.ldTbl);
  }

  lemma FlagsOnlyLoads(c: State, j: nat)
    requires TableOk(c.ldTbl, c.rob, c.HeadId()) && j < |c.rob| && !c.rob[j].inst.Load?
    ensures FlagLoads(c)[j] == c.rob[j]
  {
    forall s | 0 <= s < |c.ldTbl|
      ensures c.ldTbl[s] != c.HeadId() + j
    {
      assert SlotOk(c.rob, c.HeadId(), s, c.ldTbl[s]);
    }
  }

  /** The op behind the head, seen through the memory the head leaves: its value stands, or it is flagged. */
  lemma RemainingOp(fit: bool, nArch: nat, c: State, mem': Mem, j: nat)
    requires TableOk(c.ldTbl, c.rob, c.HeadId()) && Aged(c.rob, c.cycle) && 0 < j < |c.rob|
        && OpOk(fit, nArch, c.prf, c.valid, c.mem, c.rob[j])
    requires !c.rob[0].inst.Store? ==> mem' == c.mem
    requires fit && c.rob[0].inst.Store? ==>
               forall a: Word :: Block(a) != Block(c.rob[0].ea) ==> mem'(a) == c.mem(a)
    ensures OpOk(fit, nArch, c.prf, c.valid, mem', Remaining(c)[j - 1])
  {
    hide LoadValues, EffAddr, ControlTarget, ExecutesSlot, LoadAligned;
    var op := c.rob[j];
    var op' := Remaining(c)[j - 1];
    if op.inst.Load? && c.rob[0].inst.Store? {
      if Violation(c, c.rob[0]) {
        ViolationFlags(c, j);
      } else if fit && op.stage == Complete && !op.loadExc {
        NoViolation(c, j);
        assert SameBlock(c.mem, mem', op.ea);
        LoadWithinBlock(op.inst.lk, c.mem, mem', op.ea, op.vals[|op.vals| - 1]);
      }
    } else if c.rob[0].inst.Store? && Violation(c, c.rob[0]) {
      FlagsOnlyLoads(c, j);
    }
    if op.stage != Waiting && !op.inst.Load? {
      assert Results(op.pc, op.inst, ReadSrcs(c.prf, op.srcs), mem') ==
             Results(op.pc, op.inst, ReadSrcs(c.prf, op.srcs), c.mem);
    }
  }

  /** Freeing the head's previous registers disturbs no op behind it. */
  lemma FreedNotRead(c: State, own: seq<Owner>, rats: seq<seq<nat>>, k: nat)
    requires |c.rob| > 0 && |rats| > 0 && Sized(View(c)) && HeadApartOf(View(c), own)
    requires Entries(PopFront(View(c)), OwnPop(own, c.rob[0].dests), rats[1..])
    requires Owned(View(c), own) && SrcsOk(c.rob, rats) && 0 < k < |c.rob| && k < |rats|
    ensures forall x :: 0 <= x < |c.rob[k].srcs| ==> !IsPrev(c.rob[0].dests, c.rob[k].srcs[x])
    ensures forall j :: 0 <= j < |c.rob[k].dests| ==> !IsPrev(c.rob[0].dests, c.rob[k].dests[j].prf)
  {
    var op := c.rob[k];
    var own' := OwnPop(own, c.rob[0].dests);
    assert SrcsFrom(rats[k], op);
    forall x | 0 <= x < |op.srcs|
      ensures !IsPrev(c.rob[0].dests, op.srcs[x])
    {
      var a := op.inst.srcs[x];
      assert rats[1..][k - 1] == rats[k];
      assert EntryOk(PopFront(View(c)), own', k - 1, a, rats[1..][k - 1][a]);
      if IsPrev(c.rob[0].dests, op.srcs[x]) {
        PrevIsFree(c, own, op.srcs[x]);
        assert false;
      }
    }
    forall j | 0 <= j < |op.dests|
      ensures !IsPrev(c.rob[0].dests, op.dests[j].prf)
    {
      DestOwner(View(c), own, k, j);
    }
  }

  lemma PrevIsFree(c: State, own: seq<Owner>, p: nat)
    requires |c.rob| > 0 && HeadApartOf(View(c), own) && p < |own| && IsPrev(c.rob[0].dests, p)
    ensures OwnPop(own, c.rob[0].dests)[p].Free?
  {
  }

  lemma TablePop(tbl: seq<int>, rob: seq<Op>, rob': seq<Op>, head: int)
    requires TableOk(tbl, rob, head) && |rob| == |rob'| + 1
    requires forall k :: 0 <= k < |rob'| ==> rob'[k].inst == rob[k + 1].inst && rob'[k].ldSlot == rob[k + 1].ldSlot
    requires LoadListed(rob[0], head, tbl)
    ensures TableOk(if rob[0].inst.Load? then tbl[rob[0].ldSlot := -1] else tbl, rob', head + 1)
  {
    var tbl' := if rob[0].inst.Load? then tbl[rob[0].ldSlot := -1] else tbl;
    forall s | 0 <= s < |tbl|
      ensures SlotOk(rob', head + 1, s, tbl'[s])
    {
      assert SlotOk(rob, head, s, tbl[s]);
    }
    forall i | 0 <= i < |rob'|
      ensures LoadListed(rob'[i], head + 1 + i, tbl')
    {
      assert LoadListed(rob[i + 1], head + (i + 1), tbl);
    }
  }

  lemma AgedPop(rob: seq<Op>, rob': seq<Op>, cycle: nat)
    requires Aged(rob, cycle) && |rob| == |rob'| + 1
    requires forall k :: 0 <= k < |rob'| ==> rob'[k].alloc == rob[k + 1].alloc
    ensures Aged(rob', cycle)
  {
  }

  /** The retired mapping of a after the head has left is valid and holds a's new architectural value. */
  lemma RetiredEntry(nArch: nat, c: State, own: seq<Owner>, a: Reg)
    requires |c.rob| > 0 && RetiredOk(c) && HeadApart(own, c.rob[0].dests, c.HeadId()) && |own| == |c.valid|
    requires DestsIn(|c.ratR|, |c.prf|, c.rob[0].dests) && a < |c.ratR|
    requires DestsValid(c.valid, c.rob[0]) && !c.rob[0].loadExc && c.rob[0].stage == Complete
    requires own[c.ratR[a]] == Held(a)
    ensures var ds := c.rob[0].dests;
            var p := ApplyDests(c.ratR, ds)[a];
            p < |c.prf| && MarkPrev(c.valid, ds, false)[p] && c.prf[p] == RetireArch(c.arch, c.prf, ds)[a]
  {
  }

  lemma RetireRetired(sys: Sys, c: State, own: seq<Owner>)
    requires sys.Wf() && Shape(sys, c) && |c.rob| > 0 && c.rob[0].stage == Complete && RetiredOk(c)
    requires Owned(View(c), own) && HeadApartOf(View(c), own)
    requires DestsValid(c.valid, c.rob[0]) && !c.rob[0].loadExc
    ensures RetiredOk(RetireHead(sys, c))
  {
    var d := RetireHead(sys, c);
    assert View(c).log[0] == c.rob[0].dests;
    assert OpShape(sys, c, c.rob[0]);
    forall a | 0 <= a < |d.ratR|
      ensures d.ratR[a] < |d.prf| && d.valid[d.ratR[a]] && d.prf[d.ratR[a]] == d.arch[a]
    {
      RetiredEntry(|c.rat|, c, own, a);
    }
  }

  lemma RetireValid(sys: Sys, c: State)
    requires sys.Wf() && Shape(sys, c) && |c.rob| > 0 && c.rob[0].stage == Complete && ValidUsed(c)
    ensures ValidUsed(RetireHead(sys, c))
  {
    hide Sys.Wf, Remaining;
    assert OpShape(sys, c, c.rob[0]);
  }

  lemma RetireTable(sys: Sys, c: State)
    requires sys.Wf() && Shape(sys, c) && |c.rob| > 0 && c.rob[0].stage == Complete
    requires TableOk(c.ldTbl, c.rob, c.HeadId()) && Aged(c.rob, c.cycle)
    ensures var d := RetireHead(sys, c); TableOk(d.ldTbl, d.rob, d.HeadId()) && Aged(d.rob, d.cycle)
  {
    hide Remaining, Shape, Sys.Wf, Aged, SlotOk;
    var d := RetireHead(sys, c);
    assert LoadListed(c.rob[0], c.HeadId() + 0, c.ldTbl);
    TablePop(c.ldTbl, c.rob, d.rob, c.HeadId());
    AgedPop(c.rob, d.rob, c.cycle);
  }

  lemma RetireRenaming(sys: Sys, c: State, own: seq<Owner>, rats: seq<seq<nat>>)
    requires sys.Wf() && Shape(sys, c) && |c.rob| > 0 && c.rob[0].stage == Complete
    requires RenameInv(sys, View(c), own, rats)
    ensures RenameInv(sys, View(RetireHead(sys, c)), OwnPop(own, c.rob[0].dests), rats[1..])
    ensures HeadApartOf(View(c), own)
    ensures Entries(PopFront(View(c)), OwnPop(own, c.rob[0].dests), rats[1..])
  {
    hide Entries, Latest, Banked, RetireHead;
    assert PrevsFrom(rats[0], View(c).log[0]);
    HeadIsApart(View(c), own);
    RetireView(sys, c, own);
    PopKeeps(sys, View(c), own, rats);
    EntriesOf(sys, PopFront(View(c)), OwnPop(own, c.rob[0].dests), rats[1..]);
  }

  lemma EntriesOf(sys: Sys, t: Tables, own: seq<Owner>, rats: seq<seq<nat>>)
    requires RenameInv(sys, t, own, rats)
    ensures Entries(t, own, rats)
  {
  }

  lemma RetireKeeps(fit: bool, sys: Sys, c: State, own: seq<Owner>, rats: seq<seq<nat>>)
    returns (own': seq<Owner>, rats': seq<seq<nat>>)
    requires sys.Wf() && DataInv(fit, sys, c, own, rats)
    requires |c.rob| > 0 && c.rob[0].stage == Complete && !c.rob[0].loadExc
    requires fit && c.rob[0].inst.Store? ==> StoreFits(c.rob[0].ea, StoreWidth(c.rob[0].inst.sk))
    ensures DataInv(fit, sys, RetireHead(sys, c), own', rats')
  {
    hide RetiredOk, Aged, Shape, Sys.Wf, TableOk, Executed, RetireHead, ValidUsed;
    own' := OwnPop(own, c.rob[0].dests);
    rats' := rats[1..];
    RetireRenaming(sys, c, own, rats);
    RetireHeadShape(sys, c);
    RetireTable(sys, c);
    assert OpOk(fit, |c.rat|, c.prf, c.valid, c.mem, c.rob[0]);
    RetireRetired(sys, c, own);
    RetireValid(sys, c);
    RetireOps(fit, sys, c, own, rats);
  }

  lemma RetireOps(fit: bool, sys: Sys, c: State, own: seq<Owner>, rats: seq<seq<nat>>)
    requires sys.Wf() && Shape(sys, c) && OpsOk(fit, c) && TableOk(c.ldTbl, c.rob, c.HeadId()) && Aged(c.rob, c.cycle)
    requires |c.rob| > 0 && c.rob[0].stage == Complete && |rats| == |c.rob| + 1
    requires fit && c.rob[0].inst.Store? ==> StoreFits(c.rob[0].ea, StoreWidth(c.rob[0].inst.sk))
    requires Sized(View(c)) && Owned(View(c), own) && HeadApartOf(View(c), own) && SrcsOk(c.rob, rats)
    requires Entries(PopFront(View(c)), OwnPop(own, c.rob[0].dests), rats[1..])
    ensures OpsOk(fit, RetireHead(sys, c)) && SrcsOk(RetireHead(sys, c).rob, rats[1..])
  {
    hide Remaining, Shape, Sys.Wf, OpOk, Entries, Sized, Owned, HeadApartOf, SrcsFrom, TableOk, Aged;
    var d := RetireHead(sys, c);
    forall k | 0 <= k < |d.rob|
      ensures OpOk(fit, |d.rat|, d.prf, d.valid, d.mem, d.rob[k])
    {
      RetireOpKeeps(fit, sys, c, own, rats, k + 1);
    }
    SrcsPop(c.rob, d.rob, rats);
  }

  lemma SrcsPop(rob: seq<Op>, rob': seq<Op>, rats: seq<seq<nat>>)
    requires SrcsOk(rob, rats) && |rob| == |rob'| + 1
    requires forall k :: 0 <= k < |rob'| ==> rob'[k].inst == rob[k + 1].inst && rob'[k].srcs == rob[k + 1].srcs
    ensures SrcsOk(rob', rats[1..])
  {
    forall k | 0 <= k < |rob'|
      ensures SrcsFrom(rats[1..][k], rob'[k])
    {
      assert SrcsFrom(rats[k + 1], rob[k + 1]);
    }
  }

  lemma RetireMem(sys: Sys, c: State)
    requires sys.Wf() && Shape(sys, c) && |c.rob| > 0 && c.rob[0].stage == Complete && c.rob[0].inst.Store?
    requires StoreFits(c.rob[0].ea, StoreWidth(c.rob[0].inst.sk))
    ensures forall a: Word :: Block(a) != Block(c.rob[0].ea) ==> RetireHead(sys, c).mem(a) == c.mem(a)
  {
    var op := c.rob[0];
    assert OpShape(sys, c, op);
    forall a: Word | Block(a) != Block(op.ea)
      ensures RetireHead(sys, c).mem(a) == c.mem(a)
    {
      WriteOutsideBlock(c.mem, op.ea, StoreBytes(op.inst.sk, op.vals), a);
    }
  }

  lemma RetireOpKeeps(fit: bool, sys: Sys, c: State, own: seq<Owner>, rats: seq<seq<nat>>, j: nat)
    requires sys.Wf() && Shape(sys, c) && OpsOk(fit, c) && TableOk(c.ldTbl, c.rob, c.HeadId()) && Aged(c.rob, c.cycle)
    requires 0 < j < |c.rob| && c.rob[0].stage == Complete && |rats| == |c.rob| + 1
    requires fit && c.rob[0].inst.Store? ==> StoreFits(c.rob[0].ea, StoreWidth(c.rob[0].inst.sk))
    requires Sized(View(c)) && Owned(View(c), own) && HeadApartOf(View(c), own) && SrcsOk(c.rob, rats)
    requires Entries(PopFront(View(c)), OwnPop(own, c.rob[0].dests), rats[1..])
    ensures var d := RetireHead(sys, c); OpOk(fit, |d.rat|, d.prf, d.valid, d.mem, d.rob[j - 1])
  {
    hide Remaining, Shape, Sys.Wf, Entries, Sized, Owned, HeadApartOf, TableOk, Aged, SrcsOk, Executed;
    var d := RetireHead(sys, c);
    assert OpOk(fit, |c.rat|, c.prf, c.valid, c.mem, c.rob[j]);
    FreedNotRead(c, own, rats, j);
    if fit && c.rob[0].inst.Store? {
      RetireMem(sys, c);
    }
    RemainingOp(fit, |c.rat|, c, d.mem, j);
    OpFrame(fit, |c.rat|, c.prf, d.prf, c.valid, d.valid, d.mem, d.rob[j - 1]);
  }

  // ----- recovery -------------------------------------------------------------------------------------

  lemma FlushKeeps(fit: bool, sys: Sys, c: State, pc: Word, own: seq<Owner>, rats: seq<seq<nat>>)
    returns (own': seq<Owner>, rats': seq<seq<nat>>)
    requires DataInv(fit, sys, c, own, rats)
    ensures DataInv(fit, sys, Flush(c, pc), own', rats')
  {
    own' := OwnRecover(own);
    rats' := [c.ratR];
    RecoverKeeps(sys, View(c), own, rats);
    FlushView(c, pc);
    FlushData(fit, sys, c, pc);
    FlushValid(c, pc, own);
  }

  lemma FlushValid(c: State, pc: Word, own: seq<Owner>)
    requires Owned(View(c), own) && BitsOwned(View(c), own) && |c.valid| == |c.used|
    ensures ValidUsed(Flush(c, pc))
  {
  }

  lemma FlushView(c: State, pc: Word)
    ensures View(Flush(c, pc)) == Recover(View(c))
  {
    assert DestLog(Flush(c, pc).rob) == [];
  }

  lemma FlushData(fit: bool, sys: Sys, c: State, pc: Word)
    requires Shape(sys, c) && RetiredOk(c) && TableOk(c.ldTbl, c.rob, c.HeadId())
    ensures var d := Flush(c, pc);
            && Shape(sys, d) && OpsOk(fit, d) && RetiredOk(d)
            && TableOk(d.ldTbl, d.rob, d.HeadId()) && Aged(d.rob, d.cycle)
  {
  }
}
