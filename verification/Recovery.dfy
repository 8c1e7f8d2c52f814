/** Flash recovery equals rolling back every op in flight, youngest first. */
module Recovery {
  import opened Basics
  import opened Isa
  import opened Core
  import opened Renaming
  import opened Dataflow
  import opened Reachability

  function RestorePrevs(rat: seq<nat>, ds: seq<Dest>): (r: seq<nat>)
    requires |ds| <= 2 && forall j :: 0 <= j < |ds| ==> ds[j].arch < |rat|
    ensures |r| == |rat|
  {
    if |ds| == 0 then rat
    else if |ds| == 1 then rat[ds[0].arch := ds[0].prev]
    else rat[ds[0].arch := ds[0].prev][ds[1].arch := ds[1].prev]
  }

  /** The op's registers and load-table slot exist. */
  ghost predicate InTables(c: State, op: Op) {
    && DestsIn(|c.rat|, |c.used|, op.dests) && |c.valid| == |c.used|
    && (op.inst.Load? ==> 0 <= op.ldSlot < |c.ldTbl|)
  }

  ghost predicate AllInTables(c: State, ops: seq<Op>) {
    forall i :: 0 <= i < |ops| ==> InTables(c, ops[i])
  }

  /** The rollback method of an op: its mappings, registers, valid bits and load-table slot are undone. */
  ghost function Undo(c: State, op: Op): (d: State)
    requires InTables(c, op)
    ensures |d.rat| == |c.rat| && |d.used| == |c.used| && |d.valid| == |c.valid| && |d.ldTbl| == |c.ldTbl|
  {
    c.(rat := RestorePrevs(c.rat, op.dests), used := MarkNew(c.used, op.dests, false),
       valid := MarkNew(c.valid, op.dests, false),
       ldTbl := if op.inst.Load? then c.ldTbl[op.ldSlot := -1] else c.ldTbl)
  }

  /** The rollback methods of several ops, called in turn. */
  ghost function UndoEach(c: State, ops: seq<Op>): State
    requires AllInTables(c, ops)
    decreases |ops|
  {
    if ops == [] then c else UndoEach(Undo(c, ops[0]), ops[1..])
  }

  /** The youngest op is undone and leaves the reorder buffer. */
  ghost function Rollback(sys: Sys, c: State): State
    requires Shape(sys, c) && |c.rob| > 0
  {
    var n := |c.rob| - 1;
    assert OpShape(sys, c, c.rob[n]);
    Undo(c, c.rob[n]).(rob := c.rob[..n])
  }

  lemma RollbackShape(sys: Sys, c: State)
    requires Shape(sys, c) && |c.rob| > 0
    ensures Shape(sys, Rollback(sys, c))
  {
    var d := Rollback(sys, c);
    assert OpShape(sys, c, c.rob[|c.rob| - 1]);
    forall i | 0 <= i < |d.rob|
      ensures OpShape(sys, d, d.rob[i])
    {
      assert OpShape(sys, c, c.rob[i]);
    }
  }

  ghost function RollbackAll(sys: Sys, c: State): State
    requires Shape(sys, c)
    decreases |c.rob|
  {
    if |c.rob| == 0 then c
    else
      RollbackShape(sys, c);
      RollbackAll(sys, Rollback(sys, c))
  }

  /** What undoing the youngest op keeps; head is the allocation number of the oldest op in flight. */
  ghost predicate Undoable(c: State, head: int, own: seq<Owner>, rats: seq<seq<nat>>) {
    var t := Tables(c.rat, c.ratR, c.used, c.usedR, DestLog(c.rob), head);
    && Sized(t) && Chain(t, rats) && Prevs(t, rats) && Owned(t, own) && BitsOwned(t, own)
    && ValidUsed(c) && RetiredOk(c) && TableOk(c.ldTbl, c.rob, head)
  }

  ghost function OwnUndo(own: seq<Owner>, ds: seq<Dest>): (r: seq<Owner>)
    ensures |r| == |own|
  {
    seq(|own|, p requires 0 <= p < |own| => if IsNew(ds, p) then Free else own[p])
  }

  ghost function TablesOf(c: State, head: int): Tables {
    Tables(c.rat, c.ratR, c.used, c.usedR, DestLog(c.rob), head)
  }

  lemma RestoreUndoes(rat: seq<nat>, ds: seq<Dest>)
    requires |ds| <= 2 && PrevsFrom(rat, ds)
    ensures RestorePrevs(ApplyDests(rat, ds), ds) == rat
  {
  }

  /** Without its youngest op the table chain ends one snapshot earlier, which is the restored speculative table. */
  lemma UndoChain(t: Tables, rats: seq<seq<nat>>, used: seq<bool>)
    requires |t.log| > 0 && Sized(t) && Chain(t, rats) && Prevs(t, rats) && |used| == |t.used|
    requires |t.log[|t.log| - 1]| <= 2 && forall d :: d in t.log[|t.log| - 1] ==> d.arch < |t.rat|
    ensures var n := |t.log| - 1;
            var t' := t.(rat := RestorePrevs(t.rat, t.log[n]), used := used, log := t.log[..n]);
            Sized(t') && Chain(t', rats[..n + 1]) && Prevs(t', rats[..n + 1])
  {
    hide ApplyDests, RestorePrevs;
    var n := |t.log| - 1;
    assert PrevsFrom(rats[n], t.log[n]) && Fits(t, t.log[n]);
    RestoreUndoes(rats[n], t.log[n]);
    assert rats[n + 1] == ApplyDests(rats[n], t.log[n]);
    hide PrevsFrom;
    forall i | 0 <= i < n
      ensures PrevsFrom(rats[..n + 1][i], t.log[..n][i])
      ensures rats[..n + 1][i + 1] == ApplyDests(rats[..n + 1][i], t.log[..n][i])
    {
      assert PrevsFrom(rats[i], t.log[i]);
      assert rats[i + 1] == ApplyDests(rats[i], t.log[i]);
    }
  }

  lemma RollbackTables(sys: Sys, c: State, head: int, own: seq<Owner>, rats: seq<seq<nat>>)
    requires Shape(sys, c) && |c.rob| > 0 && Undoable(c, head, own, rats)
    ensures var d := Rollback(sys, c); var t := TablesOf(d, head); var n := |c.rob| - 1;
            Sized(t) && Chain(t, rats[..n + 1]) && Prevs(t, rats[..n + 1])
  {
    hide Chain, Prevs, Owned, BitsOwned, ValidUsed, RetiredOk, TableOk;
    var n := |c.rob| - 1;
    var d := Rollback(sys, c);
    var t := TablesOf(c, head);
    assert t.log[n] == c.rob[n].dests && Fits(t, t.log[n]);
    assert DestLog(d.rob) == t.log[..n];
    UndoChain(t, rats, d.used);
  }

  lemma UndoOwned(t: Tables, rat: seq<nat>, own: seq<Owner>)
    requires |t.log| > 0 && Owned(t, own) && Fits(t, t.log[|t.log| - 1])
    ensures var n := |t.log| - 1; var ds := t.log[n];
            Owned(t.(rat := rat, used := MarkNew(t.used, ds, false), log := t.log[..n]), OwnUndo(own, ds))
  {
    var n := |t.log| - 1;
    var ds := t.log[n];
    var t' := t.(rat := rat, used := MarkNew(t.used, ds, false), log := t.log[..n]);
    var own' := OwnUndo(own, ds);
    forall i | 0 <= i < n
      ensures DestsOwned(t'.log[i], t.head + i, own')
    {
      UndoDests(t, own, i);
    }
    forall p | 0 <= p < |own'|
      ensures OwnerOk(t', p, own'[p])
    {
      assert OwnerOk(t, p, own[p]);
      if own[p].InFlight? && own[p].id == t.head + n {
        assert IsNew(ds, p);
      }
    }
    forall a | 0 <= a < |t.ratR|
      ensures own'[t.ratR[a]] == Held(a)
    {
      NotNew(t, own, n, t.ratR[a]);
    }
  }

  lemma UndoDests(t: Tables, own: seq<Owner>, i: nat)
    requires |t.log| > 0 && Owned(t, own) && |t.log[|t.log| - 1]| <= 2 && i < |t.log| - 1
    ensures DestsOwned(t.log[i], t.head + i, OwnUndo(own, t.log[|t.log| - 1]))
  {
    forall j | 0 <= j < |t.log[i]|
      ensures !IsNew(t.log[|t.log| - 1], t.log[i][j].prf)
    {
      DestOwner(t, own, i, j);
      NotNew(t, own, |t.log| - 1, t.log[i][j].prf);
    }
    assert DestsOwned(t.log[i], t.head + i, own);
  }

  lemma UndoBits(t: Tables, own: seq<Owner>)
    requires |t.log| > 0 && Owned(t, own) && BitsOwned(t, own) && Fits(t, t.log[|t.log| - 1])
    ensures var ds := t.log[|t.log| - 1];
            BitsOwned(t.(used := MarkNew(t.used, ds, false)), OwnUndo(own, ds))
  {
    var n := |t.log| - 1;
    if |t.log[n]| > 0 { DestOwner(t, own, n, 0); }
    if |t.log[n]| > 1 { DestOwner(t, own, n, 1); }
  }

  lemma RollbackOwners(sys: Sys, c: State, head: int, own: seq<Owner>, rats: seq<seq<nat>>)
    requires Shape(sys, c) && |c.rob| > 0 && Undoable(c, head, own, rats)
    ensures var t := TablesOf(Rollback(sys, c), head); var own' := OwnUndo(own, c.rob[|c.rob| - 1].dests);
            Owned(t, own') && BitsOwned(t, own')
  {
    hide Chain, Prevs, Owned, ValidUsed, RetiredOk, TableOk;
    var n := |c.rob| - 1;
    var t := TablesOf(c, head);
    var d := Rollback(sys, c);
    assert t.log[n] == c.rob[n].dests && Fits(t, t.log[n]);
    assert DestLog(d.rob) == t.log[..n];
    UndoOwned(t, d.rat, own);
    UndoBits(t, own);
  }

  lemma RollbackTable(tbl: seq<int>, rob: seq<Op>, head: int)
    requires |rob| > 0 && TableOk(tbl, rob, head)
    ensures var op := rob[|rob| - 1]; op.inst.Load? ==> 0 <= op.ldSlot < |tbl|
    ensures var op := rob[|rob| - 1];
            TableOk(if op.inst.Load? then tbl[op.ldSlot := -1] else tbl, rob[..|rob| - 1], head)
  {
    var n := |rob| - 1;
    assert LoadListed(rob[n], head + n, tbl);
    var tbl' := if rob[n].inst.Load? then tbl[rob[n].ldSlot := -1] else tbl;
    forall s | 0 <= s < |tbl|
      ensures SlotOk(rob[..n], head, s, tbl'[s])
    {
      assert SlotOk(rob, head, s, tbl[s]);
    }
    forall i | 0 <= i < n
      ensures LoadListed(rob[..n][i], head + i, tbl')
    {
      assert LoadListed(rob[i], head + i, tbl);
    }
  }

  lemma RollbackRest(sys: Sys, c: State, head: int, own: seq<Owner>, rats: seq<seq<nat>>)
    requires Shape(sys, c) && |c.rob| > 0 && Undoable(c, head, own, rats)
    ensures var d := Rollback(sys, c); ValidUsed(d) && RetiredOk(d) && TableOk(d.ldTbl, d.rob, head)
  {
    hide Chain, Prevs, BitsOwned, TableOk;
    var n := |c.rob| - 1;
    var t := TablesOf(c, head);
    assert t.log[n] == c.rob[n].dests && Fits(t, t.log[n]);
    RollbackTable(c.ldTbl, c.rob, head);
    forall a | 0 <= a < |c.ratR|
      ensures !IsNew(c.rob[n].dests, c.ratR[a])
    {
      NotNew(t, own, n, c.ratR[a]);
    }
  }

  lemma {:induction false} RollbackReaches(sys: Sys, c: State, head: int, own: seq<Owner>, rats: seq<seq<nat>>)
    requires Shape(sys, c) && Undoable(c, head, own, rats)
    ensures var d := RollbackAll(sys, c);
            d == c.(rat := c.ratR, used := c.usedR, valid := BitsOf(c.ratR, |c.valid|), rob := [],
                    ldTbl := seq(|c.ldTbl|, _ => -1))
    decreases |c.rob|
  {
    if |c.rob| == 0 {
      NothingInFlight(c, head, own, rats);
    } else {
      hide Undoable, Shape;
      var n := |c.rob| - 1;
      RollbackShape(sys, c);
      RollbackUndoable(sys, c, head, own, rats);
      RollbackReaches(sys, Rollback(sys, c), head, OwnUndo(own, c.rob[n].dests), rats[..n + 1]);
      RollbackKeeps(sys, c);
    }
  }

  lemma RollbackKeeps(sys: Sys, c: State)
    requires Shape(sys, c) && |c.rob| > 0
    ensures var d := Rollback(sys, c);
            && d == c.(rat := d.rat, used := d.used, valid := d.valid, rob := d.rob, ldTbl := d.ldTbl)
            && |d.valid| == |c.valid| && |d.ldTbl| == |c.ldTbl| && |d.rob| < |c.rob|
  {
  }

  lemma RollbackUndoable(sys: Sys, c: State, head: int, own: seq<Owner>, rats: seq<seq<nat>>)
    requires Shape(sys, c) && |c.rob| > 0 && Undoable(c, head, own, rats)
    ensures |rats| == |c.rob| + 1
    ensures Undoable(Rollback(sys, c), head, OwnUndo(own, c.rob[|c.rob| - 1].dests), rats[..|c.rob|])
  {
    hide Rollback, Shape, ValidUsed, RetiredOk, TableOk, BitsOwned, Owned;
    RollbackTables(sys, c, head, own, rats);
    RollbackOwners(sys, c, head, own, rats);
    RollbackRest(sys, c, head, own, rats);
  }

  lemma NothingInFlight(c: State, head: int, own: seq<Owner>, rats: seq<seq<nat>>)
    requires Undoable(c, head, own, rats) && |c.rob| == 0
    ensures c.rat == c.ratR && c.used == c.usedR && c.valid == BitsOf(c.ratR, |c.valid|)
    ensures c.ldTbl == seq(|c.ldTbl|, _ => -1)
  {
    var t := TablesOf(c, head);
    forall p | 0 <= p < |own|
      ensures c.used[p] == c.usedR[p] && (c.valid[p] <==> p in c.ratR)
    {
      assert OwnerOk(t, p, own[p]);
    }
    forall s | 0 <= s < |c.ldTbl|
      ensures c.ldTbl[s] == -1
    {
      assert SlotOk(c.rob, head, s, c.ldTbl[s]);
    }
  }

  /** Copying the retired tables gives exactly the tables that rolling back each op in flight, youngest to oldest,
      would give. */
  lemma FlashIsRollback(sys: Sys, c: State, pc: Word)
    requires Structured(sys, c)
    ensures Shape(sys, c)
    ensures Flush(c, pc) == RollbackAll(sys, c).(fq := [], fetchPc := pc, slotPc := 0)
  {
    hide Structured, Undoable;
    var own, rats := StructuredUndoable(sys, c);
    RollbackReaches(sys, c, c.HeadId(), own, rats);
  }

  /** In every reachable state from which the retire stage recovers, what it does is to retire the mispredicted branch,
      and its slot if it executes one, and to roll back every op left in flight, youngest to oldest; a flagged op at the
      head is rolled back with the rest. */
  lemma FlashEqualsRollback(sys: Sys, c: State)
    requires Reachable(sys, c)
    ensures sys.Wf() && Shape(sys, c) && Shape(sys, Unflushed(sys, c))
    ensures Recovers(Decide(c.rob)) ==>
              Retire(sys, c) ==
              RollbackAll(sys, Unflushed(sys, c)).(fq := [], fetchPc := Decide(c.rob).pc, slotPc := 0)
  {
    hide Reachable, Structured, Shape, Retire, Flush, Unflushed, WfProg, Decide, RollbackAll;
    ReachableStructured(sys, c);
    UnflushedStructured(sys, c);
    if Recovers(Decide(c.rob)) {
      FlashIsRollback(sys, Unflushed(sys, c), Decide(c.rob).pc);
    }
  }

  lemma RobInTables(sys: Sys, c: State)
    requires Shape(sys, c)
    ensures AllInTables(c, Reversed(c.rob))
  {
    forall i | 0 <= i < |c.rob|
      ensures InTables(c, Reversed(c.rob)[i])
    {
      assert OpShape(sys, c, c.rob[|c.rob| - 1 - i]);
    }
  }

  /** The rollback methods do not look at the reorder buffer. */
  lemma {:induction false} UndoEachFrame(c: State, ops: seq<Op>, rob: seq<Op>)
    requires AllInTables(c, ops)
    ensures UndoEach(c.(rob := rob), ops) == UndoEach(c, ops).(rob := rob)
    decreases |ops|
  {
    if ops != [] {
      assert Undo(c.(rob := rob), ops[0]) == Undo(c, ops[0]).(rob := rob);
      UndoEachFrame(Undo(c, ops[0]), ops[1..], rob);
    }
  }

  lemma UndoFirst(c: State)
    requires |c.rob| > 0 && AllInTables(c, Reversed(c.rob)) && InTables(c, c.rob[|c.rob| - 1])
    ensures var n := |c.rob| - 1; var rest := Reversed(c.rob[..n]); var b := Undo(c, c.rob[n]).(rob := c.rob[..n]);
            AllInTables(b, rest)
            && UndoEach(c, Reversed(c.rob)).(rob := []) == UndoEach(b, rest).(rob := [])
  {
    var n := |c.rob| - 1;
    var rest := Reversed(c.rob[..n]);
    assert Reversed(c.rob) == [c.rob[n]] + rest;
    assert Reversed(c.rob)[0] == c.rob[n] && Reversed(c.rob)[1..] == rest;
    forall i | 0 <= i < n
      ensures InTables(Undo(c, c.rob[n]), rest[i])
    {
      assert InTables(c, Reversed(c.rob)[i + 1]);
    }
    UndoEachFrame(Undo(c, c.rob[n]), rest, c.rob[..n]);
  }

  /** Rolling everything back is calling the rollback methods along the reorder buffer backwards. */
  lemma {:induction false} RollbackOrder(sys: Sys, c: State)
    requires Shape(sys, c)
    ensures AllInTables(c, Reversed(c.rob))
    ensures RollbackAll(sys, c) == UndoEach(c, Reversed(c.rob)).(rob := [])
    decreases |c.rob|
  {
    RobInTables(sys, c);
    if |c.rob| > 0 {
      hide Shape, Undo, InTables;
      var n := |c.rob| - 1;
      RollbackShape(sys, c);
      RollbackOrder(sys, Rollback(sys, c));
      assert InTables(c, Reversed(c.rob)[0]);
      UndoFirst(c);
    }
  }

  lemma StructuredUndoable(sys: Sys, c: State) returns (own: seq<Owner>, rats: seq<seq<nat>>)
    requires Structured(sys, c)
    ensures Shape(sys, c) && Undoable(c, c.HeadId(), own, rats)
  {
    hide Chain, Prevs, Owned, BitsOwned, Entries, Latest, OpsOk, SrcsOk, TableOk;
    own, rats :| DataInv(false, sys, c, own, rats);
  }
}
