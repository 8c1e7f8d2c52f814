/** The machine can always go on: from every reachable state, whatever was fetched, scheduled or flagged before, some
    choice of steps retires the next instruction of program order, unless that is a misaligned load. */
module Liveness {
  import opened Basics
  import opened Isa
  import opened LoadStore
  import opened Core
  import opened Renaming
  import opened Dataflow
  import opened Control
  import opened Refinement
  import opened Reachability
  import opened Schedules
  import opened FreeLists
  import opened MemoryOrder
  import opened Progress

  // ----- what the machine needs ------------------------------------------------------------------------------

  /** A reorder buffer and a load table with room for a branch and its delay slot, and in each register file three
      more physical than architectural registers: the link register of the branch, and two results of the slot. */
  ghost predicate Roomy(sys: Sys, c: State) {
    && sys.robCap >= 2 && |c.ldTbl| >= 1
    && forall a :: 0 <= a < |sys.bankA| ==> |InBank(sys.bankP, sys.bankA[a])| >= |InBank(sys.bankA, sys.bankA[a])| + 3
  }

  /** The next instruction is not a load whose address is no multiple of the bytes it reads. */
  predicate Aligned(prog: Prog, s: Arch)
    requires WfProg(|s.regs|, prog)
  {
    var inst := prog(s.pc);
    inst.Load? ==> EffAddr(inst, Operands(inst, s.regs)) % Multiple(inst.lk) == 0
  }

  /** The test the core makes when the load executes. */
  lemma AlignedTest(prog: Prog, s: Arch)
    requires WfProg(|s.regs|, prog)
    ensures var inst := prog(s.pc);
            Aligned(prog, s) <==> (inst.Load? ==> LoadAligned(inst.lk, EffAddr(inst, Operands(inst, s.regs))))
  {
    hide LoadAligned, Multiple, EffAddr;
    var inst := prog(s.pc);
    if inst.Load? {
      AlignedExact(inst.lk, EffAddr(inst, Operands(inst, s.regs)));
    }
  }

  ghost predicate AlignedUpTo(sys: Sys, s0: Arch, n: nat)
    requires sys.Wf() && |s0.regs| == |sys.bankA|
  {
    forall k :: 0 <= k < n ==> Aligned(sys.prog, RefRun(sys.prog, s0, k))
  }

  // ----- room ------------------------------------------------------------------------------------------------

  lemma RetireHeadTable(sys: Sys, c: State)
    requires sys.Wf() && Shape(sys, c) && |c.rob| > 0 && c.rob[0].stage == Complete
    ensures |RetireHead(sys, c).ldTbl| == |c.ldTbl|
  {
    hide WfProg, Remaining;
    assert OpShape(sys, c, c.rob[0]);
  }

  lemma StepLoadTable(sys: Sys, c: State, st: Step)
    requires sys.Wf() && Shape(sys, c) && Enabled(sys, c, st)
    ensures |Next(sys, c, st).ldTbl| == |c.ldTbl|
  {
    hide WfProg, Ready, ExecOp, Remaining, Rename, MarkPrev, MarkNew, RetireMarks, RetireArch, ApplyDests;
    if st.RetireStep? {
      if |c.rob| > 0 && c.rob[0].stage == Complete {
        RetireHeadTable(sys, c);
      }
      if Decide(c.rob).TwoThenFlush? {
        RetireHeadShape(sys, c);
        RetireHeadTable(sys, RetireHead(sys, c));
      }
    }
  }

  lemma {:induction false} RunLoadTable(sys: Sys, c: State, steps: seq<Step>, d: State)
    requires sys.Wf() && Runs(sys, c, steps, d)
    ensures |d.ldTbl| == |c.ldTbl|
    decreases |steps|
  {
    hide Shape, WfProg, Enabled, Next;
    if steps != [] {
      StepLoadTable(sys, c, steps[0]);
      RunLoadTable(sys, Next(sys, c, steps[0]), steps[1..], d);
    }
  }

  /** With at most one destination in flight, two registers of any file can be taken. */
  lemma TwoFree(sys: Sys, c: State, b: nat, p: nat)
    requires Structured(sys, c) && Shape(sys, c)
    requires |InBank(sys.bankP, b)| >= |InBank(sys.bankA, b)| + 3
    requires |c.rob| <= 1 && (|c.rob| == 1 ==> |c.rob[0].dests| <= 1)
    ensures FirstFree(sys.bankP, c.used, b, 0) != -1
    ensures p < |c.used| ==> FirstFree(sys.bankP, c.used[p := true], b, 0) != -1
  {
    hide RenameInv, Conserved, UsedIn, InBank, DestsInBank;
    var own, rats :| DataInv(false, sys, c, own, rats);
    TablesConserved(sys, View(c), own, rats);
    FileConserved(sys, View(c), b);
    FewDests(sys.bankP, DestLog(c.rob), b);
    FreeByCount(sys.bankP, c.used, b);
    if p < |c.used| {
      UsedGrows(sys.bankP, c.used, b, p);
      FreeByCount(sys.bankP, c.used[p := true], b);
    }
  }

  lemma FewDests(bankP: seq<nat>, log: seq<seq<Dest>>, b: nat)
    requires |log| <= 1 && (|log| == 1 ==> |log[0]| <= 1)
    ensures |DestsInBank(bankP, log, b)| <= 1
  {
    var one: set<(nat, nat)> := {(0, 0)};
    assert DestsInBank(bankP, log, b) <= one;
    SubsetSize(DestsInBank(bankP, log, b), one);
  }

  lemma UsedGrows(bankP: seq<nat>, used: seq<bool>, b: nat, p: nat)
    requires |used| == |bankP| && p < |used|
    ensures |UsedIn(bankP, used[p := true], b)| <= |UsedIn(bankP, used, b)| + 1
  {
    var s, t := UsedIn(bankP, used[p := true], b), UsedIn(bankP, used, b) + {p};
    SubsetSize(s, t);
  }

  lemma FreeByCount(bankP: seq<nat>, used: seq<bool>, b: nat)
    requires |used| == |bankP| && |UsedIn(bankP, used, b)| < |InBank(bankP, b)|
    ensures FirstFree(bankP, used, b, 0) != -1
  {
    assert FirstFree(bankP, used, b, 0) == -1 ==> UsedIn(bankP, used, b) == InBank(bankP, b);
  }

  lemma CanRename(sys: Sys, c: State, ds: seq<Reg>)
    requires Structured(sys, c) && Shape(sys, c) && Roomy(sys, c)
    requires |c.rob| <= 1 && (|c.rob| == 1 ==> |c.rob[0].dests| <= 1)
    requires |ds| <= 2 && forall j :: 0 <= j < |ds| ==> ds[j] < |c.rat|
    ensures Rename(sys, c.rat, c.used, ds).Some?
  {
    hide Structured, InBank;
    if |ds| > 0 {
      TwoFree(sys, c, sys.bankA[ds[0]], 0);
      if |ds| > 1 {
        TwoFree(sys, c, sys.bankA[ds[1]], FirstFree(sys.bankP, c.used, sys.bankA[ds[0]], 0));
      }
    }
  }

  lemma SlotFree(c: State)
    requires TableOk(c.ldTbl, c.rob, c.HeadId()) && |c.ldTbl| >= 1
    requires forall i :: 0 <= i < |c.rob| ==> !c.rob[i].inst.Load?
    ensures FirstEmpty(c.ldTbl, 0) != -1
  {
    assert SlotOk(c.rob, c.HeadId(), 0, c.ldTbl[0]);
  }

  /** An op can be allocated behind nothing or behind a branch or jump. */
  lemma CanAllocateNext(sys: Sys, c: State)
    requires sys.Wf() && Structured(sys, c) && Shape(sys, c) && Roomy(sys, c) && |c.fq| > 0
    requires |c.rob| <= 1 && (|c.rob| == 1 ==> IsControl(c.rob[0].inst))
    ensures CanAllocate(sys, c)
  {
    hide Structured, Roomy, InBank;
    StructuredTable(sys, c);
    assert WfInst(|c.rat|, sys.prog(c.fq[0].pc));
    if |c.rob| == 1 {
      assert OpShape(sys, c, c.rob[0]);
      assert WfInst(|c.rat|, sys.prog(c.rob[0].pc));
    }
    CanRename(sys, c, Dests(c.fq[0].inst));
    RoomyTable(sys, c);
    SlotFree(c);
  }

  lemma RoomyTable(sys: Sys, c: State)
    requires Roomy(sys, c)
    ensures sys.robCap >= 2 && |c.ldTbl| >= 1
  {
  }

  lemma RoomyKept(sys: Sys, c: State, d: State)
    requires Roomy(sys, c) && |d.ldTbl| == |c.ldTbl|
    ensures Roomy(sys, d)
  {
  }

  // ----- moving without retiring -----------------------------------------------------------------------------

  /** The steps lead from c0 to c, and program order is at s. */
  ghost predicate Here(sys: Sys, c0: State, steps: seq<Step>, c: State, s: Arch, x: Aux) {
    && At(sys, c0, steps, c) && Shape(sys, c) && Roomy(sys, c)
    && |s.regs| == |sys.bankA| && Matches(sys, c, s, x)
  }

  lemma Move(sys: Sys, c0: State, steps: seq<Step>, c: State, st: Step, s: Arch, x: Aux)
    returns (steps': seq<Step>, x': Aux)
    requires Here(sys, c0, steps, c, s, x) && sys.Wf() && Shape(sys, c) && Enabled(sys, c, st) && !st.RetireStep?
    ensures Here(sys, c0, steps', Next(sys, c, st), s, x') && steps <= steps'
  {
    hide At, Shape, Roomy, Matches, WfProg, Enabled, Next, Runs;
    var d := Next(sys, c, st);
    steps' := Go(sys, c0, steps, c, st, d);
    x' := FrontMatches(sys, c, st, s, x);
    StepLoadTable(sys, c, st);
    RoomyKept(sys, c, d);
  }

  lemma Unpack(sys: Sys, c0: State, steps: seq<Step>, c: State, s: Arch, x: Aux)
    requires Here(sys, c0, steps, c, s, x)
    ensures sys.Wf() && Structured(sys, c) && Shape(sys, c) && Roomy(sys, c) && Reachable(sys, c)
    ensures |s.regs| == |sys.bankA| && Matches(sys, c, s, x)
  {
    hide Initial, Runs, Structured, Shape, Roomy, Matches;
  }

  /** The same instructions in the same places, and nothing retired. */
  ghost predicate Grown(c: State, d: State, n: nat) {
    && d.retired == c.retired && |d.rob| == |c.rob| + n
    && forall i :: 0 <= i < |c.rob| ==> d.rob[i] == c.rob[i]
  }

  /** An op more behind nothing or behind a branch or jump. */
  lemma Bring(sys: Sys, c0: State, steps: seq<Step>, c: State, s: Arch, x: Aux)
    returns (steps': seq<Step>, d: State, x': Aux)
    requires Here(sys, c0, steps, c, s, x) && |c.rob| <= 1 && (|c.rob| == 1 ==> IsControl(c.rob[0].inst))
    ensures Here(sys, c0, steps', d, s, x') && steps <= steps'
    ensures Grown(c, d, 1) && !d.rob[|c.rob|].loadExc
  {
    hide Here, Shape, Roomy, Matches, WfProg, Structured, CanAllocate, Reachable;
    steps', d, x' := steps, c, x;
    Unpack(sys, c0, steps, c, s, x);
    if c.fq == [] {
      steps', x' := Move(sys, c0, steps, c, FetchStep(false, 0), s, x);
      d := Fetch(sys, c, false, 0);
      Unpack(sys, c0, steps', d, s, x');
    }
    CanAllocateNext(sys, d);
    steps', x' := Move(sys, c0, steps', d, AllocStep, s, x');
    d := Allocate(sys, d);
  }

  /** Op i with another stage, and what its execution settles. */
  ghost predicate Settled(c: State, d: State, i: nat) {
    && d.retired == c.retired && |d.rob| == |c.rob| && i < |c.rob|
    && (forall k :: 0 <= k < |c.rob| && k != i ==> d.rob[k] == c.rob[k])
    && d.rob[i].inst == c.rob[i].inst
  }

  /** Execution flags a load only for its address. */
  ghost predicate AddressFine(c: State, i: nat)
    requires i < |c.rob| && WfInst(|c.rat|, c.rob[i].inst)
    requires |c.rob[i].srcs| == |c.rob[i].inst.srcs|
    requires forall k :: 0 <= k < |c.rob[i].srcs| ==> c.rob[i].srcs[k] < |c.prf|
  {
    c.rob[i].inst.Load? ==> LoadAligned(c.rob[i].inst.lk, EffAddr(c.rob[i].inst, ReadSrcs(c.prf, c.rob[i].srcs)))
  }

  lemma OpAtWf(sys: Sys, c: State, i: nat)
    requires sys.Wf() && Shape(sys, c) && i < |c.rob|
    ensures WfInst(|c.rat|, c.rob[i].inst) && OpShape(sys, c, c.rob[i])
  {
    hide WfInst;
    assert OpShape(sys, c, c.rob[i]);
    assert WfInst(|sys.bankA|, sys.prog(c.rob[i].pc));
  }

  lemma ExecuteSettles(sys: Sys, c: State, i: nat)
    requires sys.Wf() && Shape(sys, c) && i < |c.rob|
    ensures WfInst(|c.rat|, c.rob[i].inst) && OpShape(sys, c, c.rob[i])
    ensures var d := Execute(sys, c, i);
            && Settled(c, d, i) && d.rob[i].stage == Issued
            && (AddressFine(c, i) ==> d.rob[i].loadExc == c.rob[i].loadExc)
  {
    hide WfInst, WfProg, Shape, Results, ControlTarget, ExecutesSlot, LoadAligned;
    OpAtWf(sys, c, i);
  }

  lemma CompleteSettles(sys: Sys, c: State, i: nat)
    requires sys.Wf() && Shape(sys, c) && i < |c.rob| && c.rob[i].stage == Issued
    ensures var d := CompleteOp(sys, c, i);
            Settled(c, d, i) && d.rob[i].stage == Complete && d.rob[i].loadExc == c.rob[i].loadExc
  {
    hide WfProg, Shape, LoadValues;
  }

  /** An op behind finished, unflagged ones can be brought to completion, unflagged if its address is aligned. */
  lemma Finish(sys: Sys, c0: State, steps: seq<Step>, c: State, s: Arch, x: Aux, i: nat)
    returns (steps': seq<Step>, d: State, x': Aux)
    requires Here(sys, c0, steps, c, s, x) && i < |c.rob|
    requires forall m :: 0 <= m < i ==> c.rob[m].stage == Complete && !c.rob[m].loadExc
    ensures Here(sys, c0, steps', d, s, x') && steps <= steps'
    ensures Settled(c, d, i) && d.rob[i].stage == Complete
    ensures sys.Wf() && WfInst(|c.rat|, c.rob[i].inst) && OpShape(sys, c, c.rob[i])
    ensures c.rob[i].stage != Waiting || AddressFine(c, i) ==> d.rob[i].loadExc == c.rob[i].loadExc
  {
    hide Here, Shape, OpShape, WfInst, Roomy, Matches, WfProg, Structured, Reachable, Execute, CompleteOp, AddressFine;
    steps', d, x' := steps, c, x;
    Unpack(sys, c0, steps, c, s, x);
    OpAtWf(sys, c, i);
    if c.rob[i].stage == Waiting {
      OldestIsReady(sys, c, i);
      ReadyToGo(sys, c, i);
      ExecuteSettles(sys, c, i);
      steps', x' := Move(sys, c0, steps, c, ExecStep(i), s, x);
      d := Execute(sys, c, i);
      Unpack(sys, c0, steps', d, s, x');
    }
    if d.rob[i].stage == Issued {
      var b := d;
      CompleteSettles(sys, b, i);
      steps', x' := Move(sys, c0, steps', b, CompleteStep(i), s, x');
      d := CompleteOp(sys, b, i);
    }
  }

  lemma ReadyToGo(sys: Sys, c: State, i: nat)
    requires sys.Wf() && Shape(sys, c) && i < |c.rob| && c.rob[i].stage == Waiting && ReadyIn(c.valid, c.rob[i])
    ensures Enabled(sys, c, ExecStep(i))
  {
  }

  // ----- the next instruction and its delay slot ---------------------------------------------------------------

  lemma HeadPc(sys: Sys, c: State, s: Arch, x: Aux)
    requires sys.Wf() && Matches(sys, c, s, x) && |c.rob| > 0
    ensures c.rob[0].pc == s.pc && c.rob[0].inst == sys.prog(s.pc)
  {
    hide RenameInv, TableOk, Aged, TargetsOk, OpsOk, SrcsOk, RetiredOk;
    HeadLink(sys, c, x.walks, 0);
  }

  /** The head is the next load of program order, so its address is aligned if that one is. */
  lemma HeadAddress(sys: Sys, c: State, s: Arch, own: seq<Owner>, rats: seq<seq<nat>>)
    requires sys.Wf() && DataInv(true, sys, c, own, rats) && c.arch == s.regs && |s.regs| == |sys.bankA|
    requires |c.rob| > 0 && c.rob[0].inst == sys.prog(s.pc)
    ensures WfInst(|c.rat|, c.rob[0].inst) && OpShape(sys, c, c.rob[0])
    ensures AddressFine(c, 0) <==> Aligned(sys.prog, s)
  {
    hide RenameInv, TableOk, Aged, OpsOk, SrcsOk, RetiredOk, LoadAligned, Aligned, EffAddr, Executed, WfProg;
    DataShape(true, sys, c, own, rats);
    OpAtWf(sys, c, 0);
    HeadOperands(sys, c, s, own, rats);
    AlignedTest(sys.prog, s);
  }

  /** Behind a finished branch or jump that executes its slot stands the next instruction but one. */
  lemma SlotBehind(sys: Sys, c: State, s: Arch, mid: Arch, x: Aux)
    requires sys.Wf() && Matches(sys, c, s, x) && |s.regs| == |sys.bankA| && Supported(sys.prog, s)
    requires |c.rob| > 1 && c.rob[0].stage == Complete && c.rob[0].hasDelay && mid == RefStep(sys.prog, s)
    ensures CallLength(sys.prog, s) == 2 && IsControl(c.rob[0].inst) && mid.pend.Some?
    ensures |x.walks| > 0 && c.rob[1].pc == mid.pc
  {
    hide DataInv, PathInv, Linked, Results, WriteRegs, Operands;
    HeadFacts(sys, c, s, x);
    HeadLink(sys, c, x.walks, 0);
    HeadLink(sys, c, x.walks, 1);
    SlotFollows(sys.prog, s, x.walks[0], c.rob[0], x.walks[1], c.rob[1], x.walks[2]);
  }

  /** The slot reads what the branch leaves, so its address is aligned if the one in program order is. */
  lemma SlotAddress(sys: Sys, c: State, s: Arch, mid: Arch, x: Aux)
    requires sys.Wf() && Matches(sys, c, s, x) && |s.regs| == |sys.bankA| && Supported(sys.prog, s)
    requires Shape(sys, c)
    requires |c.rob| > 1 && c.rob[0].stage == Complete && c.rob[0].hasDelay && mid == RefStep(sys.prog, s)
    requires |mid.regs| == |s.regs| && Aligned(sys.prog, mid)
    ensures WfInst(|c.rat|, c.rob[1].inst) && OpShape(sys, c, c.rob[1]) && c.rob[1].inst == sys.prog(mid.pc)
    ensures AddressFine(c, 1)
  {
    hide Matches, Shape, OpShape, WfInst, WfProg, Supported, RetireHead, RefStep, Aligned, AddressFine;
    SlotBehind(sys, c, s, mid, x);
    OpAtWf(sys, c, 1);
    var d := SlotAtHead(sys, c, s, mid, x);
    SlotInst(sys, c, mid);
    SameAddress(sys, c, d);
  }

  lemma SlotInst(sys: Sys, c: State, mid: Arch)
    requires |c.rob| > 1 && OpShape(sys, c, c.rob[1]) && c.rob[1].pc == mid.pc
    ensures c.rob[1].inst == sys.prog(mid.pc)
  {
  }

  /** Retiring the branch leaves the slot at the head with its operands. */
  lemma SlotAtHead(sys: Sys, c: State, s: Arch, mid: Arch, x: Aux) returns (d: State)
    requires sys.Wf() && Matches(sys, c, s, x) && |s.regs| == |sys.bankA| && Supported(sys.prog, s) && Shape(sys, c)
    requires |c.rob| > 1 && c.rob[0].stage == Complete && c.rob[0].hasDelay && mid == RefStep(sys.prog, s)
    requires |mid.regs| == |s.regs| && Aligned(sys.prog, mid)
    ensures |d.rob| > 0 && d.rob[0] == c.rob[1] && d.prf == c.prf && |d.rat| == |c.rat| && Shape(sys, d)
    ensures WfInst(|d.rat|, d.rob[0].inst) && OpShape(sys, d, d.rob[0]) && AddressFine(d, 0)
  {
    hide DataInv, PathInv, Shape, OpShape, WfInst, WfProg, Supported, RefStep, Aligned, AddressFine, Flags, Remaining;
    HeadFacts(sys, c, s, x);
    SlotBehind(sys, c, s, mid, x);
    OpAtWf(sys, c, 1);
    SlotInst(sys, c, mid);
    HeadUnflagged(c.rob[0]);
    var x' := RetireOne(sys, c, s, x);
    ControlFlagsNothing(sys, c);
    d := RetireHead(sys, c);
    DataShape(true, sys, d, x'.own, x'.rats);
    HeadAddress(sys, d, mid, x'.own, x'.rats);
  }

  lemma HeadUnflagged(op: Op)
    requires Flags(op) && IsControl(op.inst)
    ensures !op.loadExc
  {
  }

  lemma SameAddress(sys: Sys, c: State, d: State)
    requires |c.rob| > 1 && |d.rob| > 0 && d.rob[0] == c.rob[1] && d.prf == c.prf && |d.rat| == |c.rat|
    requires WfInst(|d.rat|, d.rob[0].inst) && OpShape(sys, d, d.rob[0]) && OpShape(sys, c, c.rob[1])
    requires AddressFine(d, 0)
    ensures WfInst(|c.rat|, c.rob[1].inst) && AddressFine(c, 1)
  {
    hide WfInst, LoadAligned, EffAddr;
  }

  // ----- retiring ----------------------------------------------------------------------------------------------

  /** The instructions of the next call of execMips are supported and its loads aligned. */
  predicate CallSmooth(prog: Prog, s: Arch)
    requires WfProg(|s.regs|, prog)
  {
    && Supported(prog, s) && Aligned(prog, s)
    && (CallLength(prog, s) == 2 ==> Supported(prog, RefStep(prog, s)) && Aligned(prog, RefStep(prog, s)))
  }

  predicate Clean(rob: seq<Op>) {
    forall i :: 0 <= i < |rob| ==> !rob[i].loadExc
  }

  /** The next instruction comes to the head and finishes. */
  lemma HeadUp(sys: Sys, c0: State, steps: seq<Step>, c: State, s: Arch, x: Aux)
    returns (steps': seq<Step>, d: State, x': Aux)
    requires Here(sys, c0, steps, c, s, x) && sys.Wf() && |s.regs| == |sys.bankA| && Aligned(sys.prog, s)
    ensures Here(sys, c0, steps', d, s, x') && steps <= steps' && d.retired == c.retired
    ensures |d.rob| > 0 && d.rob[0].stage == Complete && (Clean(c.rob) ==> Clean(d.rob))
  {
    hide Here, Shape, OpShape, WfInst, Roomy, WfProg, Structured, Reachable, Aligned, AddressFine, Agree, DataInv,
      PathInv;
    steps', d, x' := steps, c, x;
    if c.rob == [] {
      steps', d, x' := Bring(sys, c0, steps, c, s, x);
    }
    var b := d;
    Unpack(sys, c0, steps', b, s, x');
    HeadPc(sys, b, s, x');
    HeadAddress(sys, b, s, x'.own, x'.rats);
    steps', d, x' := Finish(sys, c0, steps', b, s, x', 0);
  }

  /** If the head has a delay slot, that comes to stand behind it and finishes too. */
  lemma SlotUp(sys: Sys, c0: State, steps: seq<Step>, c: State, s: Arch, mid: Arch, x: Aux)
    returns (steps': seq<Step>, d: State, x': Aux)
    requires Here(sys, c0, steps, c, s, x) && sys.Wf() && |s.regs| == |sys.bankA| && Supported(sys.prog, s)
    requires mid == RefStep(sys.prog, s) && |mid.regs| == |s.regs|
    requires CallLength(sys.prog, s) == 2 ==> Aligned(sys.prog, mid)
    requires |c.rob| > 0 && c.rob[0].stage == Complete && c.rob[0].hasDelay
    ensures Here(sys, c0, steps', d, s, x') && steps <= steps' && d.retired == c.retired
    ensures |d.rob| > 1 && d.rob[0] == c.rob[0] && d.rob[1].stage == Complete && (Clean(c.rob) ==> Clean(d.rob))
  {
    hide Here, Shape, OpShape, WfInst, Roomy, WfProg, Structured, Reachable, Aligned, AddressFine, Matches, RefStep,
      CallLength, Supported;
    steps', d, x' := steps, c, x;
    Unpack(sys, c0, steps, c, s, x);
    HeadFacts(sys, c, s, x);
    HeadUnflagged(c.rob[0]);
    if |c.rob| == 1 {
      steps', d, x' := Bring(sys, c0, steps, c, s, x);
    }
    var b := d;
    Unpack(sys, c0, steps', b, s, x');
    SlotBehind(sys, b, s, mid, x');
    SlotAddress(sys, b, s, mid, x');
    steps', d, x' := Finish(sys, c0, steps', b, s, x', 1);
  }

  /** With nothing flagged the retire stage has no reason to nuke. */
  lemma CleanRetires(sys: Sys, c: State, s: Arch, x: Aux)
    requires sys.Wf() && Matches(sys, c, s, x) && |s.regs| == |sys.bankA| && CallSmooth(sys.prog, s)
    requires Clean(c.rob)
    ensures !Decide(c.rob).FlushTo?
  {
    hide DataInv, PathInv, Linked, RefStep, CallLength, Aligned;
    if Decide(c.rob).FlushTo? {
      SlotBehind(sys, c, s, RefStep(sys.prog, s), x);
      SecondFlags(sys, c, x.own, x.rats);
      assert false;
    }
  }

  lemma SecondFlags(sys: Sys, c: State, own: seq<Owner>, rats: seq<seq<nat>>)
    requires DataInv(true, sys, c, own, rats) && |c.rob| > 1
    ensures Flags(c.rob[1]) && c.rob[1].inst == sys.prog(c.rob[1].pc)
  {
    hide RenameInv, TableOk, Aged, SrcsOk, RetiredOk, Executed;
    assert OpOk(true, |c.rat|, c.prf, c.valid, c.mem, c.rob[1]);
    assert OpShape(sys, c, c.rob[1]);
  }

  /** The retire stage acts: something retires, or a flagged op sends the machine back to the next instruction. */
  lemma RetireNow(sys: Sys, c0: State, steps: seq<Step>, c: State, s: Arch, x: Aux)
    returns (steps': seq<Step>, d: State, x': Aux)
    requires Here(sys, c0, steps, c, s, x) && sys.Wf() && |s.regs| == |sys.bankA| && CallSmooth(sys.prog, s)
    requires !Decide(c.rob).Stall?
    ensures At(sys, c0, steps', d) && steps <= steps' && |d.retired| <= |c.retired| + 2
    ensures |d.retired| > |c.retired| ||
            (d.rob == [] && d.retired == c.retired && !Clean(c.rob) && Here(sys, c0, steps', d, s, x'))
  {
    hide At, Here, Shape, Roomy, Matches, WfProg, Structured, Reachable, Retire, Clean, CallSmooth, Runs, Initial;
    Unpack(sys, c0, steps, c, s, x);
    HereAt(sys, c0, steps, c, s, x);
    d := Retire(sys, c);
    steps' := Go(sys, c0, steps, c, RetireStep, d);
    RetiredGrows(sys, c, RetireStep);
    RetireAtMostTwo(c.rob);
    x' := x;
    if RetireCount(c.rob) == 0 {
      if Clean(c.rob) {
        CleanRetires(sys, c, s, x);
      }
      x' := Nuked(sys, c, s, x);
      StepLoadTable(sys, c, RetireStep);
      RoomyKept(sys, c, d);
      MakeHere(sys, c0, steps', d, s, x');
    }
  }

  lemma Nuked(sys: Sys, c: State, s: Arch, x: Aux) returns (x': Aux)
    requires sys.Wf() && Matches(sys, c, s, x) && |s.regs| == |sys.bankA| && CallSmooth(sys.prog, s) && Shape(sys, c)
    requires Decide(c.rob).FlushTo?
    ensures Matches(sys, Retire(sys, c), s, x') && Retire(sys, c).rob == []
  {
    hide Matches, Supported, Shape, Aligned, CallLength, RefStep, WfProg;
    x' := FlushOnly(sys, c, s, x);
  }

  lemma HereAt(sys: Sys, c0: State, steps: seq<Step>, c: State, s: Arch, x: Aux)
    requires Here(sys, c0, steps, c, s, x)
    ensures At(sys, c0, steps, c)
  {
    hide At, Shape, Roomy, Matches;
  }

  lemma MakeHere(sys: Sys, c0: State, steps: seq<Step>, c: State, s: Arch, x: Aux)
    requires At(sys, c0, steps, c) && Shape(sys, c) && Roomy(sys, c)
    requires |s.regs| == |sys.bankA| && Matches(sys, c, s, x)
    ensures Here(sys, c0, steps, c, s, x)
  {
    hide At, Shape, Roomy, Matches;
  }

  /** From anywhere: the next instruction retires, or a flagged op is nuked. */
  lemma Attempt(sys: Sys, c0: State, steps: seq<Step>, c: State, s: Arch, x: Aux)
    returns (steps': seq<Step>, d: State, x': Aux)
    requires Here(sys, c0, steps, c, s, x) && sys.Wf() && |s.regs| == |sys.bankA| && CallSmooth(sys.prog, s)
    ensures At(sys, c0, steps', d) && steps <= steps' && |d.retired| <= |c.retired| + 2
    ensures |d.retired| > |c.retired| ||
            (d.rob == [] && d.retired == c.retired && !Clean(c.rob) && Here(sys, c0, steps', d, s, x'))
  {
    hide At, Here, WfProg, Clean, Supported, Aligned, RefStep, CallLength;
    var b;
    steps', b, x' := HeadUp(sys, c0, steps, c, s, x);
    if Decide(b.rob).Stall? {
      steps', b, x' := SlotUp(sys, c0, steps', b, s, RefStep(sys.prog, s), x');
    }
    steps', d, x' := RetireNow(sys, c0, steps', b, s, x');
  }

  /** At most one nuke stands between the machine and its next retirement. */
  lemma Advance(sys: Sys, c0: State, steps: seq<Step>, c: State, s: Arch, x: Aux)
    returns (steps': seq<Step>, d: State)
    requires Here(sys, c0, steps, c, s, x) && sys.Wf() && |s.regs| == |sys.bankA| && CallSmooth(sys.prog, s)
    ensures At(sys, c0, steps', d) && steps <= steps' && |c.retired| < |d.retired| <= |c.retired| + 2
  {
    hide At, Here, WfProg, CallSmooth;
    var x';
    steps', d, x' := Attempt(sys, c0, steps, c, s, x);
    if |d.retired| <= |c.retired| {
      steps', d, x' := Attempt(sys, c0, steps', d, s, x');
    }
  }

  // ----- the theorems ------------------------------------------------------------------------------------------

  /** A state a run has reached, with program order where that run has got. */
  lemma Arrive(sys: Sys, c: State, steps: seq<Step>, d: State) returns (x: Aux)
    requires sys.Wf() && Initial(sys, c) && Runs(sys, c, steps, d) && Roomy(sys, c)
    requires SupportedUpTo(sys, Start(c), |d.retired| + 1)
    ensures Here(sys, c, steps, d, RefRun(sys.prog, Start(c), |d.retired|), x)
  {
    hide Initial, Runs, Structured, Shape, Roomy, Matches, InOrderPcs, Supported, RefRun, WfProg;
    RunInv(sys, c, steps, d);
    x :| Matches(sys, d, RefRun(sys.prog, Start(c), |d.retired|), x);
    assert Reachable(sys, d);
    ReachableStructured(sys, d);
    StructuredShape(sys, d);
    RunLoadTable(sys, c, steps, d);
    RoomyKept(sys, c, d);
  }

  /** However a run has got where it is, it can be continued until it retires more, if the instructions of the next
      call of execMips are supported and its loads aligned. */
  lemma CanAlwaysRetire(sys: Sys, c: State, steps: seq<Step>, d: State) returns (more: seq<Step>, e: State)
    requires sys.Wf() && Initial(sys, c) && Runs(sys, c, steps, d) && Roomy(sys, c)
    requires SupportedUpTo(sys, Start(c), |d.retired|)
    requires CallSmooth(sys.prog, RefRun(sys.prog, Start(c), |d.retired|))
    ensures Runs(sys, d, more, e) && |d.retired| < |e.retired| <= |d.retired| + 2
  {
    hide Initial, Runs, Roomy, Here, WfProg, RefRun, Aligned, CallLength, RefStep, Supported, Follows;
    InitialFollows(sys, c);
    var s := RefRun(sys.prog, Start(c), |d.retired|);
    var x := Arrive(sys, c, steps, d);
    var all;
    all, e := Advance(sys, c, steps, d, s, x);
    RunSplit(sys, c, steps, d, all, e);
    more := all[|steps|..];
  }

  /** A finished, unflagged head has an aligned address. */
  lemma FinishedAligned(sys: Sys, c: State, s: Arch, own: seq<Owner>, rats: seq<seq<nat>>)
    requires sys.Wf() && DataInv(true, sys, c, own, rats) && c.arch == s.regs && |s.regs| == |sys.bankA|
    requires |c.rob| > 0 && c.rob[0].stage == Complete && !c.rob[0].loadExc && c.rob[0].inst == sys.prog(s.pc)
    ensures Aligned(sys.prog, s)
  {
    hide RenameInv, TableOk, Aged, OpsOk, SrcsOk, RetiredOk, LoadAligned, Aligned, EffAddr, LoadValues, WfProg;
    HeadOperands(sys, c, s, own, rats);
    AlignedTest(sys.prog, s);
  }

  /** Whatever the retire stage takes off was aligned, and so is a slot kept behind a retired branch. */
  lemma RetiringAligned(sys: Sys, c: State, s: Arch, mid: Arch, x: Aux)
    requires sys.Wf() && Matches(sys, c, s, x) && |s.regs| == |sys.bankA| && Shape(sys, c) && Structured(sys, c)
    requires mid == RefStep(sys.prog, s) && |mid.regs| == |s.regs|
    requires RetireCount(c.rob) > 0 ==> Supported(sys.prog, s)
    requires RetireCount(c.rob) > 1 ==> Supported(sys.prog, mid)
    ensures RetireCount(c.rob) > 0 ==> Aligned(sys.prog, s)
    ensures RetireCount(c.rob) > 1 ==> Aligned(sys.prog, mid)
  {
    hide DataInv, PathInv, Shape, Structured, Supported, RefStep, Aligned, Agree, Flags, Remaining, RetireHead;
    RetiringUnflagged(sys, c);
    if RetireCount(c.rob) > 0 {
      HeadFacts(sys, c, s, x);
      FinishedAligned(sys, c, s, x.own, x.rats);
    }
    if RetireCount(c.rob) > 1 {
      SlotIsNext(sys, c, s, mid, x);
      ControlFlagsNothing(sys, c);
      var x' := RetireOne(sys, c, s, x);
      OpAtWf(sys, c, 1);
      SlotInst(sys, c, mid);
      FinishedAligned(sys, RetireHead(sys, c), mid, x'.own, x'.rats);
    }
  }

  lemma StepAligned(sys: Sys, s0: Arch, c: State, st: Step)
    requires sys.Wf() && |s0.regs| == |sys.bankA| && Follows(sys, s0, c) && Shape(sys, c) && Enabled(sys, c, st)
    requires SupportedUpTo(sys, s0, |Next(sys, c, st).retired|) && AlignedUpTo(sys, s0, |c.retired|)
    ensures AlignedUpTo(sys, s0, |Next(sys, c, st).retired|)
  {
    hide WfProg, Shape, Enabled, Next, RefRun, Structured, InOrder, Supported, Aligned, Matches, RetireCount,
      InOrderPcs;
    RetiredGrows(sys, c, st);
    var n := |c.retired|;
    var d := Next(sys, c, st);
    RetireAtMostTwo(c.rob);
    if |d.retired| > n {
      var s := RefRun(sys.prog, s0, n);
      assert Supported(sys.prog, s);
      var x :| Matches(sys, c, s, x);
      NextInOrder(sys.prog, s0, n);
      RetiringAligned(sys, c, s, RefRun(sys.prog, s0, n + 1), x);
    }
  }

  lemma {:induction false} RunAligned(sys: Sys, s0: Arch, c: State, steps: seq<Step>, d: State)
    requires sys.Wf() && |s0.regs| == |sys.bankA| && Follows(sys, s0, c) && Runs(sys, c, steps, d)
    requires SupportedUpTo(sys, s0, |d.retired|) && AlignedUpTo(sys, s0, |c.retired|)
    ensures AlignedUpTo(sys, s0, |d.retired|)
    decreases |steps|
  {
    hide WfProg, Shape, Enabled, Next, Follows, Supported, Aligned;
    if steps != [] {
      RunGrows(sys, Next(sys, c, steps[0]), steps[1..], d);
      StepFollows(sys, s0, c, steps[0]);
      StepAligned(sys, s0, c, steps[0]);
      RunAligned(sys, s0, Next(sys, c, steps[0]), steps[1..], d);
    }
  }

  /** How many instructions of program order the core must get through to retire k: a branch whose delay slot comes
      next does not retire without it being finished. */
  ghost function Needed(sys: Sys, s0: Arch, k: nat): nat
    requires sys.Wf() && |s0.regs| == |sys.bankA|
  {
    if RefRun(sys.prog, s0, k).pend.Some? then k + 1 else k
  }

  lemma NothingYet(sys: Sys, c: State)
    requires Initial(sys, c)
    ensures c.retired == []
  {
  }

  /** A run that has retired k instructions has met no misaligned load among them, nor in the slot that comes next. */
  lemma ReachedAligned(sys: Sys, c: State, steps: seq<Step>, d: State, k: nat)
    requires sys.Wf() && Initial(sys, c) && Runs(sys, c, steps, d)
    requires |Start(c).regs| == |sys.bankA| && SupportedUpTo(sys, Start(c), k + 1) && k <= |d.retired| <= k + 1
    ensures AlignedUpTo(sys, Start(c), Needed(sys, Start(c), k))
  {
    hide Initial, Runs, Supported, Aligned, Follows, RefRun, Matches, InOrderPcs, WfProg;
    InitialFollows(sys, c);
    NothingYet(sys, c);
    RunAligned(sys, Start(c), c, steps, d);
    var s := RefRun(sys.prog, Start(c), k);
    if |d.retired| == k && s.pend.Some? {
      RunInv(sys, c, steps, d);
      var x :| Matches(sys, d, s, x);
      KeptSlotAligned(sys, d, s, x);
    }
  }

  lemma KeptSlotAligned(sys: Sys, c: State, s: Arch, x: Aux)
    requires sys.Wf() && Matches(sys, c, s, x) && |s.regs| == |sys.bankA| && s.pend.Some?
    ensures Aligned(sys.prog, s)
  {
    hide DataInv, PathInv, Aligned;
    HeadPc(sys, c, s, x);
    FinishedAligned(sys, c, s, x.own, x.rats);
  }

  lemma {:induction false} CanReach(sys: Sys, c: State, k: nat) returns (steps: seq<Step>, d: State)
    requires sys.Wf() && Initial(sys, c) && Roomy(sys, c) && |Start(c).regs| == |sys.bankA|
    requires SupportedUpTo(sys, Start(c), k + 1) && AlignedUpTo(sys, Start(c), Needed(sys, Start(c), k))
    ensures Runs(sys, c, steps, d) && k <= |d.retired| <= k + 1
    decreases k
  {
    hide Initial, SupportedUpTo, AlignedUpTo, Needed, CallSmooth, Roomy, WfProg, RefRun, Start;
    if k == 0 {
      steps, d := [], c;
      NothingYet(sys, c);
    } else {
      hide Runs;
      NeededBefore(sys, Start(c), k);
      steps, d := CanReach(sys, c, k - 1);
      if |d.retired| < k {
        CallAhead(sys, Start(c), k);
        var more, e := CanAlwaysRetire(sys, c, steps, d);
        RunsOn(sys, c, steps, d, more, e);
        steps, d := steps + more, e;
      }
    }
  }

  lemma NeededBefore(sys: Sys, s0: Arch, k: nat)
    requires sys.Wf() && |s0.regs| == |sys.bankA| && k > 0
    requires SupportedUpTo(sys, s0, k + 1) && AlignedUpTo(sys, s0, Needed(sys, s0, k))
    ensures SupportedUpTo(sys, s0, k - 1) && SupportedUpTo(sys, s0, k)
    ensures AlignedUpTo(sys, s0, Needed(sys, s0, k - 1))
  {
    hide Supported, Aligned, WfProg, RefRun;
  }

  /** The call of execMips that starts with instruction k - 1 is smooth if what is needed to retire k is. */
  lemma CallAhead(sys: Sys, s0: Arch, k: nat)
    requires sys.Wf() && |s0.regs| == |sys.bankA| && k > 0
    requires SupportedUpTo(sys, s0, k + 1) && AlignedUpTo(sys, s0, Needed(sys, s0, k))
    ensures CallSmooth(sys.prog, RefRun(sys.prog, s0, k - 1))
  {
    hide Supported, Aligned, WfProg, Results, WriteRegs, Operands, ExecutesSlot;
    var s := RefRun(sys.prog, s0, k - 1);
    NextInOrder(sys.prog, s0, k - 1);
    assert Supported(sys.prog, s) && Aligned(sys.prog, s);
    assert Supported(sys.prog, RefRun(sys.prog, s0, k));
  }

  lemma {:induction false} RunsOn(sys: Sys, c: State, steps: seq<Step>, d: State, more: seq<Step>, e: State)
    requires sys.Wf() && Runs(sys, c, steps, d) && Runs(sys, d, more, e)
    ensures Runs(sys, c, steps + more, e)
    decreases |steps|
  {
    hide Shape, WfProg, Enabled, Next;
    if steps == [] {
      assert [] + more == more;
    } else {
      assert (steps + more)[1..] == steps[1..] + more;
      RunsOn(sys, Next(sys, c, steps[0]), steps[1..], d, more, e);
    }
  }

  /** Of a supported program some run retires k instructions, one more when the last of them takes its delay slot
      along, exactly if the loads among those it needs are aligned. */
  lemma ProgressExact(sys: Sys, c: State, k: nat)
    requires sys.Wf() && Initial(sys, c) && Roomy(sys, c)
    requires SupportedUpTo(sys, Start(c), k + 1)
    ensures (exists steps, d :: Runs(sys, c, steps, d) && k <= |d.retired| <= k + 1) <==>
            AlignedUpTo(sys, Start(c), Needed(sys, Start(c), k))
  {
    hide Initial, Supported, Aligned, Roomy, WfProg, RefRun, Runs, AlignedUpTo, SupportedUpTo, Needed, Follows;
    InitialFollows(sys, c);
    if AlignedUpTo(sys, Start(c), Needed(sys, Start(c), k)) {
      var steps, d := CanReach(sys, c, k);
    }
    forall steps, d | Runs(sys, c, steps, d) && k <= |d.retired| <= k + 1
      ensures AlignedUpTo(sys, Start(c), Needed(sys, Start(c), k))
    {
      ReachedAligned(sys, c, steps, d, k);
    }
  }
}
