/** Loads read memory early; no load retires with a stale value. */
module MemoryOrder {
  import opened Isa
  import opened Core
  import opened Renaming
  import opened Dataflow
  import opened DataSteps
  import opened Control
  import opened Refinement
  import opened Reachability
  import opened OperandsKept

  /** In any reachable state the load table holds exactly the loads in flight; when the head is a store they are all
      younger than it, and none was allocated in an earlier cycle. */
  lemma TableLoadsAreYounger(sys: Sys, c: State)
    requires Reachable(sys, c)
    ensures forall i :: 0 <= i < |c.rob| ==> (c.rob[i].inst.Load? <==> c.HeadId() + i in c.ldTbl)
    ensures |c.rob| > 0 && c.rob[0].inst.Store? ==>
              forall s :: 0 <= s < |c.ldTbl| && c.ldTbl[s] != -1 ==>
                var j := c.ldTbl[s] - c.HeadId();
                0 < j < |c.rob| && c.rob[j].inst.Load? && c.rob[j].alloc >= c.rob[0].alloc
  {
    hide Reachable, Structured;
    ReachableStructured(sys, c);
    StructuredTable(sys, c);
    forall s | 0 <= s < |c.ldTbl|
      ensures SlotOk(c.rob, c.HeadId(), s, c.ldTbl[s])
    {
    }
    forall i | 0 <= i < |c.rob| && c.rob[i].inst.Load?
      ensures c.HeadId() + i in c.ldTbl
    {
      assert LoadListed(c.rob[i], c.HeadId() + i, c.ldTbl);
    }
  }

  lemma StructuredTable(sys: Sys, c: State)
    requires Structured(sys, c)
    ensures TableOk(c.ldTbl, c.rob, c.HeadId()) && Aged(c.rob, c.cycle)
  {
    hide RenameInv, OpsOk, SrcsOk, TableOk, Aged;
    var own, rats :| DataInv(false, sys, c, own, rats);
  }

  /** When a store retires, every load that has already completed in the store's block is flagged. */
  lemma CompletedLoadsAreFlagged(sys: Sys, c: State, j: nat)
    requires Reachable(sys, c) && Shape(sys, c)
    requires 0 < j < |c.rob| && c.rob[0].inst.Store? && c.rob[0].stage == Complete
    requires c.rob[j].inst.Load? && c.rob[j].stage == Complete && Block(c.rob[j].ea) == Block(c.rob[0].ea)
    ensures RetireHead(sys, c).rob[j - 1].loadExc
  {
    hide Reachable, Structured, Shape;
    ReachableStructured(sys, c);
    StructuredTable(sys, c);
    if !Violation(c, c.rob[0]) {
      NoViolation(c, j);
    } else {
      ViolationFlags(c, j);
    }
  }

  /** A finished load in flight lies in the block the store at the head writes. */
  ghost predicate FinishedInBlock(c: State, j: nat) {
    0 < j < |c.rob| && c.rob[j].inst.Load? && c.rob[j].stage == Complete && Block(c.rob[j].ea) == Block(c.rob[0].ea)
  }

  /** A retiring store flags either every load in flight, which it does if and only if one has finished in its block, or
      nothing. */
  lemma ViolationFlagsExactly(sys: Sys, c: State, k: nat)
    requires Reachable(sys, c) && Shape(sys, c)
    requires 0 < k < |c.rob| && c.rob[0].inst.Store? && c.rob[0].stage == Complete
    ensures RetireHead(sys, c).rob[k - 1].loadExc <==>
            c.rob[k].loadExc || (c.rob[k].inst.Load? && exists j :: FinishedInBlock(c, j))
  {
    hide Reachable, Structured, Shape, Conflicts, FinishedInBlock, Violation;
    ReachableStructured(sys, c);
    StructuredTable(sys, c);
    ViolationExact(c);
    if c.rob[k].inst.Load? {
      ViolationFlags(c, k);
    } else {
      FlagsOnlyLoads(c, k);
    }
    assert RetireHead(sys, c).rob == Remaining(c);
  }

  lemma ViolationExact(c: State)
    requires TableOk(c.ldTbl, c.rob, c.HeadId()) && Aged(c.rob, c.cycle) && |c.rob| > 0 && c.rob[0].inst.Store?
    ensures Violation(c, c.rob[0]) <==> exists j :: FinishedInBlock(c, j)
  {
    if Violation(c, c.rob[0]) {
      var s :| 0 <= s < |c.ldTbl| && c.ldTbl[s] != -1 && Conflicts(c, c.rob[0], c.ldTbl[s]);
      assert SlotOk(c.rob, c.HeadId(), s, c.ldTbl[s]);
      assert FinishedInBlock(c, c.ldTbl[s] - c.HeadId());
    } else {
      forall j: nat
        ensures !FinishedInBlock(c, j)
      {
        if FinishedInBlock(c, j) {
          NoViolation(c, j);
        }
      }
    }
  }

  /** A load flagged before it completes delivers nothing: its destinations stay as they are and invalid. */
  lemma FlaggedDeliversNothing(sys: Sys, c: State, i: nat)
    requires sys.Wf() && Structured(sys, c) && Shape(sys, c) && i < |c.rob| && c.rob[i].stage == Issued
    requires c.rob[i].inst.Load? && c.rob[i].loadExc
    ensures var d := CompleteOp(sys, c, i);
            && d.prf == c.prf && d.valid == c.valid
            && forall j :: 0 <= j < |c.rob[i].dests| ==>
                 c.rob[i].dests[j].prf < |d.valid| && !d.valid[c.rob[i].dests[j].prf]
  {
    hide RenameInv, TableOk, Aged, SrcsOk, RetiredOk, WfInst, Executed;
    var own, rats :| DataInv(false, sys, c, own, rats);
    assert OpOk(false, |c.rat|, c.prf, c.valid, c.mem, c.rob[i]);
  }

  /** Neither the head nor the delay slot retired with it is ever a flagged load. */
  lemma FlaggedLoadsNeverRetire(sys: Sys, c: State)
    requires Reachable(sys, c) && Shape(sys, c)
    ensures RetireCount(c.rob) > 0 ==> !c.rob[0].loadExc
    ensures RetireCount(c.rob) > 1 ==> |c.rob| > 1 && !c.rob[1].loadExc && !RetireHead(sys, c).rob[0].loadExc
  {
    hide Reachable, Shape, Structured, RetireHead, WfProg;
    ReachableStructured(sys, c);
    RetiringUnflagged(sys, c);
  }

  lemma RetiringUnflagged(sys: Sys, c: State)
    requires sys.Wf() && Structured(sys, c) && Shape(sys, c)
    ensures RetireCount(c.rob) > 0 ==> !c.rob[0].loadExc
    ensures RetireCount(c.rob) > 1 ==> |c.rob| > 1 && !c.rob[1].loadExc && !RetireHead(sys, c).rob[0].loadExc
  {
    hide Shape, Structured, RetireHead, Remaining, WfProg;
    if RetireCount(c.rob) > 0 {
      HeadFlags(sys, c);
      if RetireCount(c.rob) > 1 {
        ControlFlagsNothing(sys, c);
      }
    }
  }

  /** A mispredicted op retires only as the head, with its delay slot if it executes one, and empties the machine. */
  lemma MispredictionFlushes(sys: Sys, c: State)
    requires sys.Wf() && Shape(sys, c)
    ensures RetireCount(c.rob) > 0 && c.rob[0].brExc ==>
              RetireCount(c.rob) == (if c.rob[0].hasDelay then 2 else 1)
              && Retire(sys, c).rob == [] && Retire(sys, c).fq == [] && Retire(sys, c).fetchPc == c.rob[0].correctPc
    ensures RetireCount(c.rob) > 1 ==> |c.rob| > 1 && c.rob[0].brExc && !c.rob[1].brExc && c.rob[1].stage == Complete
  {
    hide Shape, RetireHead, WfProg;
    if Decide(c.rob).TwoThenFlush? {
      RetireHeadShape(sys, c);
    }
  }

  /** The step retires the op with this allocation number. */
  ghost predicate StepRetires(c: State, st: Step, id: int) {
    st.RetireStep? && c.HeadId() <= id < c.HeadId() + RetireCount(c.rob)
  }

  ghost predicate RunRetires(sys: Sys, c: State, steps: seq<Step>, d: State, id: int)
    requires sys.Wf() && Runs(sys, c, steps, d)
    decreases |steps|
  {
    steps != [] && (StepRetires(c, steps[0], id) || RunRetires(sys, Next(sys, c, steps[0]), steps[1..], d, id))
  }

  lemma StepKeepsFlag(sys: Sys, c: State, st: Step, id: int)
    requires sys.Wf() && Shape(sys, c) && Enabled(sys, c, st)
    requires InFlightAt(c, id) && OpAt(c, id).loadExc && InFlightAt(Next(sys, c, st), id)
    ensures OpAt(Next(sys, c, st), id).loadExc
  {
    hide WfProg, Shape, CanAllocate, Ready, WfInst, Allocate, RetireHead;
    if st.RetireStep? {
      RetireKeepsFlag(sys, c, id);
    } else if st.AllocStep? {
      AllocateNumbers(sys, c);
    }
  }

  lemma AllocateNumbers(sys: Sys, c: State)
    requires sys.Wf() && Shape(sys, c) && CanAllocate(sys, c)
    ensures var d := Allocate(sys, c); d.HeadId() == c.HeadId() && |d.rob| == |c.rob| + 1 && c.rob <= d.rob
  {
    hide WfProg, Shape, CanAllocate;
  }

  lemma RetireKeepsFlag(sys: Sys, c: State, id: int)
    requires sys.Wf() && Shape(sys, c)
    requires InFlightAt(c, id) && OpAt(c, id).loadExc && InFlightAt(Retire(sys, c), id)
    ensures OpAt(Retire(sys, c), id).loadExc
  {
    hide WfProg, Shape;
    match Decide(c.rob)
    case One => assert RetireHead(sys, c).rob == Remaining(c);
    case _ =>
      if Decide(c.rob).TwoThenFlush? {
        RetireHeadShape(sys, c);
      }
  }

  /** An op no longer in flight does not come back. */
  lemma {:induction false} GoneForGood(sys: Sys, c: State, steps: seq<Step>, d: State, id: int)
    requires sys.Wf() && Runs(sys, c, steps, d) && id < c.HeadId()
    ensures !RunRetires(sys, c, steps, d, id) && !InFlightAt(d, id)
    decreases |steps|
  {
    hide WfProg, Shape, Enabled, Next;
    if steps != [] {
      StepNumbers(sys, c, steps[0]);
      GoneForGood(sys, Next(sys, c, steps[0]), steps[1..], d, id);
    }
  }

  /** Over every run a load once flagged stays flagged while it is in flight, and never retires: it leaves by a nuke. */
  lemma {:induction false} FlaggedIsNuked(sys: Sys, c: State, steps: seq<Step>, d: State, id: int)
    requires sys.Wf() && Structured(sys, c) && Runs(sys, c, steps, d) && InFlightAt(c, id) && OpAt(c, id).loadExc
    ensures !RunRetires(sys, c, steps, d, id)
    ensures InFlightAt(d, id) ==> OpAt(d, id).loadExc
    decreases |steps|
  {
    hide WfProg, Shape, Enabled, Next, Structured, RetireCount;
    if steps != [] {
      var b := Next(sys, c, steps[0]);
      RetiringUnflagged(sys, c);
      assert RetireCount(c.rob) <= 2 by { RetireAtMostTwo(c.rob); }
      StepStructure(sys, c, steps[0]);
      StepNumbers(sys, c, steps[0]);
      if InFlightAt(b, id) {
        StepKeepsFlag(sys, c, steps[0], id);
        FlaggedIsNuked(sys, b, steps[1..], d, id);
      } else {
        GoneForGood(sys, b, steps[1..], d, id);
      }
    }
  }

  lemma RetireAtMostTwo(rob: seq<Op>)
    ensures RetireCount(rob) <= 2
  {
  }

  /** The op is a load that has delivered what program order, about to execute it at s, loads. */
  ghost predicate LoadsWhat(prf: seq<Word>, op: Op, s: Arch) {
    && op.inst.Load? && WfInst(|s.regs|, op.inst)
    && var vals := Operands(op.inst, s.regs);
       op.ea == EffAddr(op.inst, vals)
       && DestsHold(prf, op.dests, LoadValues(op.inst.lk, s.mem, op.ea, vals[|vals| - 1]))
  }

  /** A finished, unflagged load at the head holds what memory now holds at the address program order computes:
      all the stores before it, and no other, have been seen. */
  lemma RetiringLoadIsCurrent(sys: Sys, c: State, steps: seq<Step>, d: State)
    requires sys.Wf() && Initial(sys, c) && Runs(sys, c, steps, d)
    requires SupportedUpTo(sys, Start(c), |d.retired| + 1)
    requires |d.rob| > 0 && d.rob[0].inst.Load? && d.rob[0].stage == Complete && !d.rob[0].loadExc
    ensures LoadsWhat(d.prf, d.rob[0], RefRun(sys.prog, Start(c), |d.retired|))
  {
    hide Runs, SupportedUpTo, Initial, WfProg, InOrderPcs, RefRun, LoadsWhat, Matches;
    RunInv(sys, c, steps, d);
    var s := RefRun(sys.prog, Start(c), |d.retired|);
    var x :| Matches(sys, d, s, x);
    HeadLoadMatches(sys, d, s, x);
  }

  lemma HeadLoadMatches(sys: Sys, d: State, s: Arch, x: Aux)
    requires sys.Wf() && Matches(sys, d, s, x) && |s.regs| == |sys.bankA|
    requires |d.rob| > 0 && d.rob[0].inst.Load? && d.rob[0].stage == Complete && !d.rob[0].loadExc
    ensures LoadsWhat(d.prf, d.rob[0], s)
  {
    hide DataInv, PathInv, Linked, LoadsWhat;
    HeadLoad(sys, d, s, x);
  }

  lemma HeadLoad(sys: Sys, d: State, s: Arch, x: Aux)
    requires DataInv(true, sys, d, x.own, x.rats) && Linked(d, s) && |s.regs| == |sys.bankA|
    requires |d.rob| > 0 && d.rob[0].inst.Load? && d.rob[0].stage == Complete && !d.rob[0].loadExc
    ensures LoadsWhat(d.prf, d.rob[0], s)
  {
    hide RenameInv, OpsOk, SrcsOk, TableOk, Aged, RetiredOk, LoadValues;
    HeadOperands(sys, d, s, x.own, x.rats);
  }

  /** A load in the delay slot of a mispredicted branch retires together with it: it too has delivered what program
      order, which has executed the branch by then, loads. */
  lemma RetiringSlotIsCurrent(sys: Sys, c: State, steps: seq<Step>, d: State)
    requires sys.Wf() && Initial(sys, c) && Runs(sys, c, steps, d)
    requires SupportedUpTo(sys, Start(c), |d.retired| + 2)
    requires Decide(d.rob).TwoThenFlush? && d.rob[1].inst.Load?
    ensures LoadsWhat(d.prf, d.rob[1], RefRun(sys.prog, Start(c), |d.retired| + 1))
  {
    hide Runs, Initial, WfProg, InOrderPcs, RefRun, LoadsWhat, Matches, Supported;
    var n := |d.retired|;
    RunInv(sys, c, steps, d);
    var s := RefRun(sys.prog, Start(c), n);
    var x :| Matches(sys, d, s, x);
    assert Supported(sys.prog, s) && Supported(sys.prog, RefRun(sys.prog, Start(c), n + 1));
    NextInOrder(sys.prog, Start(c), n);
    SlotLoad(sys, d, s, RefRun(sys.prog, Start(c), n + 1), x);
  }

  lemma SlotLoad(sys: Sys, d: State, s: Arch, mid: Arch, x: Aux)
    requires sys.Wf() && Matches(sys, d, s, x) && |s.regs| == |sys.bankA| && Supported(sys.prog, s)
    requires mid == RefStep(sys.prog, s) && |mid.regs| == |s.regs| && Supported(sys.prog, mid)
    requires Decide(d.rob).TwoThenFlush? && d.rob[1].inst.Load?
    ensures LoadsWhat(d.prf, d.rob[1], mid)
  {
    hide DataInv, PathInv, WfProg, Supported, RefStep, Agree, Remaining, RetireHead, LoadsWhat, Shape;
    HeadFacts(sys, d, s, x);
    SlotIsNext(sys, d, s, mid, x);
    DataShape(true, sys, d, x.own, x.rats);
    ControlFlagsNothing(sys, d);
    BranchKeepsPrf(sys, d);
    var x' := RetireOne(sys, d, s, x);
    HeadLoad(sys, RetireHead(sys, d), mid, x');
  }

  lemma BranchKeepsPrf(sys: Sys, d: State)
    requires sys.Wf() && Shape(sys, d) && |d.rob| > 0 && d.rob[0].stage == Complete
    ensures RetireHead(sys, d).prf == d.prf
  {
    hide WfProg, Shape, Remaining;
  }
}
