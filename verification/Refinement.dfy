/** The out-of-order core refines in-order execution: whatever the schedule and the predictors do, what has retired
    is a prefix of program order. */
module Refinement {
  import opened Isa
  import opened Core
  import opened Renaming
  import opened Dataflow
  import opened DataSteps
  import opened Control

  /** The bookkeeping behind the invariant. */
  datatype Aux = Aux(own: seq<Owner>, rats: seq<seq<nat>>, walks: seq<Walker>)

  ghost predicate Linked(c: State, s: Arch) {
    c.arch == s.regs && c.mem == s.mem
  }

  /** Once a branch has retired its delay slot is finished, unflagged and next to retire. */
  ghost predicate SlotKept(rob: seq<Op>, s: Arch) {
    s.pend.Some? ==> |rob| > 0 && rob[0].stage == Complete && !rob[0].loadExc
  }

  ghost predicate Matches(sys: Sys, c: State, s: Arch, x: Aux) {
    && DataInv(true, sys, c, x.own, x.rats)
    && PathInv(sys, c, x.walks)
    && Linked(c, s) && Agree(x.walks[0], s) && SlotKept(c.rob, s)
  }

  // ----- the head of the reorder buffer -----------------------------------------------------------------

  /** What the head read is what the architectural registers hold. */
  lemma HeadOperands(sys: Sys, c: State, s: Arch, own: seq<Owner>, rats: seq<seq<nat>>)
    requires DataInv(true, sys, c, own, rats) && c.arch == s.regs && |c.rob| > 0
    ensures OpOk(true, |c.rat|, c.prf, c.valid, c.mem, c.rob[0])
    ensures ReadSrcs(c.prf, c.rob[0].srcs) == Operands(c.rob[0].inst, s.regs)
  {
    assert OpOk(true, |c.rat|, c.prf, c.valid, c.mem, c.rob[0]);
    assert SrcsFrom(rats[0], c.rob[0]);
  }

  lemma HeadResults(sys: Sys, c: State, s: Arch, own: seq<Owner>, rats: seq<seq<nat>>)
    requires sys.Wf() && DataInv(true, sys, c, own, rats) && Linked(c, s)
    requires |c.rob| > 0 && c.rob[0].stage == Complete && !c.rob[0].loadExc && c.rob[0].pc == s.pc
    requires |s.regs| == |sys.bankA| && Supported(sys.prog, s)
    ensures Linked(RetireHead(sys, c), RefStep(sys.prog, s))
    ensures c.rob[0].inst.Store? ==> StoreFits(c.rob[0].ea, StoreWidth(c.rob[0].inst.sk))
  {
    HeadOperands(sys, c, s, own, rats);
    HeadDelivers(sys, c, s);
  }

  /** A finished, unflagged op has delivered its results. */
  lemma FinishedHolds(nArch: nat, prf: seq<Word>, mem: Mem, op: Op, vals: seq<Word>)
    requires OpWf(nArch, |prf|, op) && op.stage == Complete && !op.loadExc && Executed(true, nArch, prf, mem, op)
    requires vals == ReadSrcs(prf, op.srcs) && |vals| == |op.inst.srcs|
    ensures DestsHold(prf, op.dests, Results(op.pc, op.inst, vals, mem))
    ensures op.inst.Store? ==> op.ea == EffAddr(op.inst, vals) && op.vals == vals
  {
    hide LoadValues, EffAddr, ControlTarget, ExecutesSlot, LoadAligned, Wrap;
  }

  /** What a supported instruction does to registers and memory, given its operands. */
  lemma RefEffect(prog: Prog, s: Arch)
    requires WfProg(|s.regs|, prog) && Supported(prog, s)
    ensures var inst := prog(s.pc); var vals := Operands(inst, s.regs); var r := RefStep(prog, s);
            && r.regs == WriteRegs(s.regs, Dests(inst), Results(s.pc, inst, vals, s.mem))
            && r.mem == (if inst.Store? then WriteBytes(s.mem, EffAddr(inst, vals), StoreBytes(inst.sk, vals))
                         else s.mem)
            && (inst.Store? ==> StoreFits(EffAddr(inst, vals), StoreWidth(inst.sk)))
  {
    hide LoadValues, EffAddr, ControlTarget, ExecutesSlot, WriteBytes, StoreBytes, StoreFits, Wrap;
  }

  lemma HeadDelivers(sys: Sys, c: State, s: Arch)
    requires sys.Wf() && Shape(sys, c) && Linked(c, s)
    requires |c.rob| > 0 && c.rob[0].stage == Complete && !c.rob[0].loadExc && c.rob[0].pc == s.pc
    requires |s.regs| == |sys.bankA| && Supported(sys.prog, s)
    requires OpOk(true, |c.rat|, c.prf, c.valid, c.mem, c.rob[0])
    requires ReadSrcs(c.prf, c.rob[0].srcs) == Operands(c.rob[0].inst, s.regs)
    ensures Linked(RetireHead(sys, c), RefStep(sys.prog, s))
    ensures c.rob[0].inst.Store? ==> StoreFits(c.rob[0].ea, StoreWidth(c.rob[0].inst.sk))
  {
    hide WfProg, RefStep, Supported, Executed, Results, LoadValues, EffAddr, WriteBytes, StoreBytes, StoreFits,
      Remaining;
    var op := c.rob[0];
    assert OpShape(sys, c, op);
    var vals := Operands(op.inst, s.regs);
    FinishedHolds(|c.rat|, c.prf, c.mem, op, vals);
    RefEffect(sys.prog, s);
    RetireArchWrites(c.arch, c.prf, op.dests, Dests(op.inst), Results(op.pc, op.inst, vals, c.mem));
  }

  lemma RetireArchWrites(arch: seq<Word>, prf: seq<Word>, ds: seq<Dest>, regs: seq<Reg>, vs: seq<Word>)
    requires DestsIn(|arch|, |prf|, ds) && DestsHold(prf, ds, vs) && |regs| == |ds|
    requires forall j :: 0 <= j < |ds| ==> ds[j].arch == regs[j]
    ensures RetireArch(arch, prf, ds) == WriteRegs(arch, regs, vs)
  {
  }

  lemma DataShape(fit: bool, sys: Sys, c: State, own: seq<Owner>, rats: seq<seq<nat>>)
    requires DataInv(fit, sys, c, own, rats)
    ensures Shape(sys, c)
  {
  }

  /** A branch or jump that retires leaves the op behind it as it was. */
  lemma ControlFlagsNothing(sys: Sys, c: State)
    requires sys.Wf() && Shape(sys, c) && |c.rob| > 1 && c.rob[0].stage == Complete && IsControl(c.rob[0].inst)
    ensures RetireHead(sys, c).rob == c.rob[1..] && RetireHead(sys, c).rob[0] == c.rob[1]
  {
    hide Sys.Wf, Shape;
  }

  /** Retiring the head when it is the next instruction is one step of program order; the path may now disagree. */
  lemma RetireOne(sys: Sys, c: State, s: Arch, x: Aux) returns (x': Aux)
    requires sys.Wf() && DataInv(true, sys, c, x.own, x.rats) && PathInv(sys, c, x.walks) && Linked(c, s)
        && |x.walks| > 0
    requires |c.rob| > 0 && c.rob[0].stage == Complete && !c.rob[0].loadExc && c.rob[0].pc == s.pc
    requires |s.regs| == |sys.bankA| && Supported(sys.prog, s)
    ensures var d := RetireHead(sys, c);
            && DataInv(true, sys, d, x'.own, x'.rats) && PathInv(sys, d, x'.walks)
            && Linked(d, RefStep(sys.prog, s)) && x'.walks == x.walks[1..]
  {
    hide PathInv, RetireHead, Supported, Shape, OpsOk, RenameInv, SrcsOk, RetiredOk, TableOk, Aged, Linked;
    HeadResults(sys, c, s, x.own, x.rats);
    var own', rats' := RetireKeeps(true, sys, c, x.own, x.rats);
    RetirePath(sys, c, x.walks);
    x' := Aux(own', rats', x.walks[1..]);
  }

  lemma FlushMatches(sys: Sys, c: State, s: Arch, x: Aux) returns (x': Aux)
    requires DataInv(true, sys, c, x.own, x.rats) && PathInv(sys, c, x.walks) && Linked(c, s) && s.pend.None?
    ensures Matches(sys, Flush(c, s.pc), s, x')
  {
    hide PathInv, Shape, OpsOk, RenameInv, SrcsOk, RetiredOk, TableOk, Aged;
    var own', rats' := FlushKeeps(true, sys, c, s.pc, x.own, x.rats);
    FlushPath(sys, c, s.pc, x.walks);
    x' := Aux(own', rats', [Walker(s.pc, 0)]);
  }

  /** How many instructions the retire stage takes off the reorder buffer. */
  function RetireCount(rob: seq<Op>): nat {
    match Decide(rob)
    case One => 1
    case OneThenFlush(_) => 1
    case TwoThenFlush(_) => 2
    case _ => 0
  }

  /** The facts about the head that the retire stage acts on. */
  lemma HeadFacts(sys: Sys, c: State, s: Arch, x: Aux)
    requires sys.Wf() && Matches(sys, c, s, x) && |s.regs| == |sys.bankA|
    requires |c.rob| > 0 && c.rob[0].stage == Complete
    ensures c.rob[0].pc == s.pc && c.rob[0].inst == sys.prog(s.pc)
    ensures Flags(c.rob[0])
    ensures var op := c.rob[0]; var vals := Operands(sys.prog(s.pc), s.regs);
            match op.inst
            case Branch(_, cond, _, likely, _) =>
              && op.hasDelay == ExecutesSlot(op.inst, vals) && op.correctPc == ControlTarget(op.pc, op.inst, vals)
              && (op.brExc <==> op.taken != cond(vals) || (!cond(vals) && likely && op.npc != Wrap(op.pc + 8)))
            case Jump(_, _, _, _) =>
              && op.correctPc == ControlTarget(op.pc, op.inst, vals)
              && (op.brExc <==> op.npc != ControlTarget(op.pc, op.inst, vals))
            case _ => true
  {
    hide RenameInv, TableOk, Aged, TargetsOk;
    HeadLink(sys, c, x.walks, 0);
    HeadOperands(sys, c, s, x.own, x.rats);
  }

  /** While a delay slot is pending the retire stage can only retire it: a nuke never separates it from its branch. */
  lemma SlotNeverNuked(sys: Sys, c: State, s: Arch, x: Aux)
    requires sys.Wf() && Matches(sys, c, s, x) && |s.regs| == |sys.bankA|
    requires s.pend.Some? && Supported(sys.prog, s)
    ensures Decide(c.rob) == One
  {
    HeadFacts(sys, c, s, x);
  }

  lemma RetireOneMatches(sys: Sys, c: State, s: Arch, x: Aux) returns (x': Aux)
    requires sys.Wf() && Matches(sys, c, s, x) && |s.regs| == |sys.bankA| && Supported(sys.prog, s)
    requires Decide(c.rob) == One
    ensures Matches(sys, Retire(sys, c), RefStep(sys.prog, s), x')
  {
    hide DataInv, PathInv, Supported;
    HeadFacts(sys, c, s, x);
    HeadLink(sys, c, x.walks, 0);
    DataShape(true, sys, c, x.own, x.rats);
    x' := RetireOne(sys, c, s, x);
    AgreeStep(sys.prog, s, x.walks[0], c.rob[0], x.walks[1]);
    KeepSlot(sys, c, s);
  }

  lemma KeepSlot(sys: Sys, c: State, s: Arch)
    requires sys.Wf() && Shape(sys, c) && |s.regs| == |sys.bankA|
    requires Decide(c.rob) == One && c.rob[0].inst == sys.prog(s.pc)
    requires var op := c.rob[0]; var vals := Operands(sys.prog(s.pc), s.regs);
             (op.inst.Branch? ==> op.hasDelay == ExecutesSlot(op.inst, vals)) && Flags(op)
    ensures SlotKept(RetireHead(sys, c).rob, RefStep(sys.prog, s))
  {
  }

  /** A branch or jump that mispredicted without a delay slot to execute: a likely branch not taken. */
  lemma RetireThenFlush(sys: Sys, c: State, s: Arch, x: Aux) returns (x': Aux)
    requires sys.Wf() && Matches(sys, c, s, x) && |s.regs| == |sys.bankA| && Supported(sys.prog, s)
    requires Decide(c.rob).OneThenFlush?
    ensures Matches(sys, Retire(sys, c), RefStep(sys.prog, s), x')
  {
    hide DataInv, PathInv, Supported;
    HeadFacts(sys, c, s, x);
    HeadLink(sys, c, x.walks, 0);
    DataShape(true, sys, c, x.own, x.rats);
    var x1 := RetireOne(sys, c, s, x);
    x' := FlushMatches(sys, RetireHead(sys, c), RefStep(sys.prog, s), x1);
  }

  /** A mispredicted branch or jump retires together with its delay slot. */
  lemma RetireBothThenFlush(sys: Sys, c: State, s: Arch, x: Aux) returns (x': Aux)
    requires sys.Wf() && Matches(sys, c, s, x) && |s.regs| == |sys.bankA| && Supported(sys.prog, s)
    requires Decide(c.rob).TwoThenFlush?
    requires Supported(sys.prog, RefStep(sys.prog, s))
    ensures Matches(sys, Retire(sys, c), RefStep(sys.prog, RefStep(sys.prog, s)), x')
  {
    hide DataInv, PathInv, Supported, RetireHead, RefStep, Linked, Flush, Shape;
    HeadFacts(sys, c, s, x);
    SlotIsNext(sys, c, s, RefStep(sys.prog, s), x);
    DataShape(true, sys, c, x.own, x.rats);
    ControlFlagsNothing(sys, c);
    var mid := RefStep(sys.prog, s);
    var x1 := RetireOne(sys, c, s, x);
    DataShape(true, sys, RetireHead(sys, c), x1.own, x1.rats);
    var x2 := RetireOne(sys, RetireHead(sys, c), mid, x1);
    x' := FlushMatches(sys, RetireHead(sys, RetireHead(sys, c)), RefStep(sys.prog, mid), x2);
  }

  /** The two instructions a mispredicted branch retires are the next two in program order, and the flush resumes
      where program order goes on. */
  lemma SlotIsNext(sys: Sys, c: State, s: Arch, mid: Arch, x: Aux)
    requires sys.Wf() && Matches(sys, c, s, x) && |s.regs| == |sys.bankA| && Supported(sys.prog, s)
    requires Decide(c.rob).TwoThenFlush? && |mid.regs| == |s.regs| && mid == RefStep(sys.prog, s)
    requires Supported(sys.prog, mid)
    ensures var end := RefStep(sys.prog, mid);
            && IsControl(c.rob[0].inst) && c.rob[0].pc == s.pc && c.rob[1].pc == mid.pc
            && end.pend.None? && end.pc == c.rob[0].correctPc && |x.walks| > 1
  {
    hide DataInv, PathInv, Linked;
    HeadFacts(sys, c, s, x);
    HeadLink(sys, c, x.walks, 0);
    HeadLink(sys, c, x.walks, 1);
    SlotFollows(sys.prog, s, x.walks[0], c.rob[0], x.walks[1], c.rob[1], x.walks[2]);
  }

  lemma FlushOnly(sys: Sys, c: State, s: Arch, x: Aux) returns (x': Aux)
    requires sys.Wf() && Matches(sys, c, s, x) && |s.regs| == |sys.bankA|
    requires s.pend.Some? ==> Supported(sys.prog, s)
    requires Decide(c.rob).FlushTo?
    ensures Matches(sys, Retire(sys, c), s, x')
  {
    hide DataInv, PathInv, Supported;
    HeadFacts(sys, c, s, x);
    if s.pend.Some? {
      SlotNeverNuked(sys, c, s, x);
    }
    x' := FlushMatches(sys, c, s, x);
  }

  // ----- steps and runs -----------------------------------------------------------------------------------

  /** Data, path and agreement after a step that retires nothing. */
  lemma FrontMatches(sys: Sys, c: State, st: Step, s: Arch, x: Aux) returns (x': Aux)
    requires sys.Wf() && Matches(sys, c, s, x) && Shape(sys, c) && Enabled(sys, c, st) && !st.RetireStep?
    ensures Matches(sys, Next(sys, c, st), s, x')
  {
    hide Matches, Shape, WfProg, CanAllocate, Fetch, Allocate, Execute, CompleteOp;
    x' := x;
    match st
    case FetchStep(take, ret) => x' := FetchMatches(sys, c, take, ret, s, x);
    case AllocStep => x' := AllocateMatches(sys, c, s, x);
    case ExecStep(i) => ExecuteMatches(sys, c, i, s, x);
    case CompleteStep(i) => CompleteMatches(sys, c, i, s, x);
    case Tick => TickMatches(sys, c, s, x);
  }

  lemma FetchMatches(sys: Sys, c: State, take: bool, ret: Word, s: Arch, x: Aux) returns (x': Aux)
    requires sys.Wf() && Matches(sys, c, s, x)
    ensures Matches(sys, Fetch(sys, c, take, ret), s, x')
  {
    hide RenameInv, SrcsOk, TableOk, Aged, PathInv;
    var d := Fetch(sys, c, take, ret);
    FetchKeeps(sys, c, take, ret, x.walks);
    x' := x.(walks := x.walks + [Walker(d.fetchPc, d.slotPc)]);
    assert |x.walks| > 0 by { PathNonEmpty(sys, c, x.walks); }
    FetchData(true, sys, c, take, ret, x.own, x.rats);
  }

  lemma PathNonEmpty(sys: Sys, c: State, walks: seq<Walker>)
    requires PathInv(sys, c, walks)
    ensures |walks| > 0
  {
  }

  lemma FetchData(fit: bool, sys: Sys, c: State, take: bool, ret: Word, own: seq<Owner>, rats: seq<seq<nat>>)
    requires DataInv(fit, sys, c, own, rats)
    ensures DataInv(fit, sys, Fetch(sys, c, take, ret), own, rats)
  {
    hide RenameInv, SrcsOk, TableOk, Aged;
    var d := Fetch(sys, c, take, ret);
    ViewSame(c, d);
    assert forall i :: 0 <= i < |d.rob| ==> OpShape(sys, c, c.rob[i]) ==> OpShape(sys, d, d.rob[i]);
  }

  lemma AllocateMatches(sys: Sys, c: State, s: Arch, x: Aux) returns (x': Aux)
    requires sys.Wf() && Matches(sys, c, s, x) && Shape(sys, c) && CanAllocate(sys, c)
    ensures Matches(sys, Allocate(sys, c), s, x')
  {
    hide DataInv, Shape, WfProg, CanAllocate;
    var own', rats' := AllocateKeeps(true, sys, c, x.own, x.rats);
    AllocateStream(sys, c);
    x' := x.(own := own', rats := rats');
  }

  lemma ExecuteMatches(sys: Sys, c: State, i: nat, s: Arch, x: Aux)
    requires sys.Wf() && Matches(sys, c, s, x) && Shape(sys, c)
    requires i < |c.rob| && c.rob[i].stage == Waiting && Ready(c, c.rob[i])
    ensures Matches(sys, Execute(sys, c, i), s, x)
  {
    hide DataInv, Shape, WfProg, Ready;
    ExecuteKeeps(true, sys, c, i, x.own, x.rats);
    SameStream(c.rob, Execute(sys, c, i).rob, c.fq);
  }

  lemma CompleteMatches(sys: Sys, c: State, i: nat, s: Arch, x: Aux)
    requires sys.Wf() && Matches(sys, c, s, x) && Shape(sys, c)
    requires i < |c.rob| && c.rob[i].stage == Issued
    ensures Matches(sys, CompleteOp(sys, c, i), s, x)
  {
    hide DataInv, Shape, WfProg;
    CompleteKeeps(true, sys, c, i, x.own, x.rats);
    SameStream(c.rob, CompleteOp(sys, c, i).rob, c.fq);
  }

  lemma TickMatches(sys: Sys, c: State, s: Arch, x: Aux)
    requires Matches(sys, c, s, x)
    ensures Matches(sys, c.(cycle := c.cycle + 1), s, x)
  {
    hide DataInv, PathInv;
    TickData(true, sys, c, x.own, x.rats);
    TickPath(sys, c, x.walks);
  }

  lemma TickData(fit: bool, sys: Sys, c: State, own: seq<Owner>, rats: seq<seq<nat>>)
    requires DataInv(fit, sys, c, own, rats)
    ensures DataInv(fit, sys, c.(cycle := c.cycle + 1), own, rats)
  {
    hide RenameInv, SrcsOk, TableOk;
    var d := c.(cycle := c.cycle + 1);
    ViewSame(c, d);
    assert forall i :: 0 <= i < |d.rob| ==> OpShape(sys, c, c.rob[i]) ==> OpShape(sys, d, d.rob[i]);
  }

  lemma TickPath(sys: Sys, c: State, walks: seq<Walker>)
    requires PathInv(sys, c, walks)
    ensures PathInv(sys, c.(cycle := c.cycle + 1), walks)
  {
  }

  ghost predicate InOrderPcs(sys: Sys, pcs: seq<Word>, s0: Arch)
    requires sys.Wf() && |s0.regs| == |sys.bankA|
  {
    forall k :: 0 <= k < |pcs| ==> pcs[k] == RefRun(sys.prog, s0, k).pc
  }

  /** The core has retired exactly the first |retired| instructions of program order from s0. */
  ghost predicate Inv(sys: Sys, s0: Arch, c: State) {
    && sys.Wf() && |s0.regs| == |sys.bankA|
    && (exists x :: Matches(sys, c, RefRun(sys.prog, s0, |c.retired|), x))
    && InOrderPcs(sys, c.retired, s0)
  }

  /** The first n instructions of program order are supported. */
  ghost predicate SupportedUpTo(sys: Sys, s0: Arch, n: nat)
    requires sys.Wf() && |s0.regs| == |sys.bankA|
  {
    forall k :: 0 <= k < n ==> Supported(sys.prog, RefRun(sys.prog, s0, k))
  }

  function StepCount(c: State, st: Step): nat {
    if st.RetireStep? then RetireCount(c.rob) else 0
  }

  lemma RetiredGrows(sys: Sys, c: State, st: Step)
    requires sys.Wf() && Shape(sys, c) && Enabled(sys, c, st)
    ensures var n := StepCount(c, st); var d := Next(sys, c, st);
            && |d.retired| == |c.retired| + n && c.retired <= d.retired
            && (n > 0 ==> d.retired[|c.retired|] == c.rob[0].pc)
            && (n > 1 ==> d.retired[|c.retired| + 1] == c.rob[1].pc)
  {
    hide WfProg, Shape, CanAllocate, Ready, ExecOp;
    if st.RetireStep? && Decide(c.rob).TwoThenFlush? {
      RetireHeadShape(sys, c);
      assert RetireHead(sys, c).rob[0].pc == c.rob[1].pc;
    }
  }

  lemma NothingRetired(sys: Sys, c: State, st: Step)
    requires sys.Wf() && Shape(sys, c) && Enabled(sys, c, st) && StepCount(c, st) == 0
    ensures var d := Next(sys, c, st); d.arch == c.arch && d.mem == c.mem && d.retired == c.retired
  {
    hide WfProg, Shape, CanAllocate, Ready, ExecOp;
  }

  /** The pcs the retire stage records are the next ones in program order. */
  lemma RetirePcs(sys: Sys, c: State, s: Arch, mid: Arch, x: Aux)
    requires sys.Wf() && |s.regs| == |sys.bankA| && Matches(sys, c, s, x)
    requires |mid.regs| == |s.regs| && mid == RefStep(sys.prog, s)
    requires RetireCount(c.rob) > 0 ==> Supported(sys.prog, s)
    requires RetireCount(c.rob) > 1 ==> Supported(sys.prog, mid)
    ensures RetireCount(c.rob) > 0 ==> c.rob[0].pc == s.pc
    ensures RetireCount(c.rob) > 1 ==> c.rob[1].pc == mid.pc
  {
    hide Matches, Supported, RefStep, WfProg;
    if RetireCount(c.rob) > 0 {
      HeadFacts(sys, c, s, x);
    }
    if RetireCount(c.rob) > 1 {
      SlotIsNext(sys, c, s, mid, x);
    }
  }

  lemma RetireMatches(sys: Sys, c: State, s: Arch, x: Aux) returns (x': Aux)
    requires sys.Wf() && |s.regs| == |sys.bankA| && Shape(sys, c) && Matches(sys, c, s, x) && Supported(sys.prog, s)
    requires RetireCount(c.rob) > 1 ==> Supported(sys.prog, RefStep(sys.prog, s))
    ensures Matches(sys, Retire(sys, c), RefRun(sys.prog, s, RetireCount(c.rob)), x')
  {
    hide Matches, Supported, RetireHead, Flush, WfProg, Shape, RefStep;
    assert RefRun(sys.prog, s, 1) == RefStep(sys.prog, RefRun(sys.prog, s, 0));
    assert RefRun(sys.prog, s, 2) == RefStep(sys.prog, RefRun(sys.prog, s, 1));
    match Decide(c.rob)
    case Stall => x' := x;
    case One => x' := RetireOneMatches(sys, c, s, x);
    case FlushTo(_) => x' := FlushOnly(sys, c, s, x);
    case OneThenFlush(_) => x' := RetireThenFlush(sys, c, s, x);
    case TwoThenFlush(_) => x' := RetireBothThenFlush(sys, c, s, x);
  }

  lemma NextInOrder(prog: Prog, s0: Arch, n: nat)
    requires WfProg(|s0.regs|, prog)
    ensures RefRun(prog, s0, n + 1) == RefStep(prog, RefRun(prog, s0, n))
  {
  }

  lemma {:induction false} RefRunSum(prog: Prog, s: Arch, n: nat, k: nat)
    requires WfProg(|s.regs|, prog)
    ensures RefRun(prog, RefRun(prog, s, n), k) == RefRun(prog, s, n + k)
  {
    hide RefStep, WfProg;
    if k > 0 {
      RefRunSum(prog, s, n, k - 1);
    }
  }

  lemma PcsGrow(sys: Sys, pcs: seq<Word>, pcs': seq<Word>, s0: Arch)
    requires sys.Wf() && |s0.regs| == |sys.bankA| && InOrderPcs(sys, pcs, s0)
    requires pcs <= pcs'
    requires forall k :: |pcs| <= k < |pcs'| ==> pcs'[k] == RefRun(sys.prog, s0, k).pc
    ensures InOrderPcs(sys, pcs', s0)
  {
    hide WfProg, RefRun;
  }

  lemma StepPcs(sys: Sys, s: Arch, c: State, st: Step, x: Aux, j: nat)
    requires sys.Wf() && |s.regs| == |sys.bankA| && Matches(sys, c, s, x)
    requires j < StepCount(c, st) && SupportedUpTo(sys, s, StepCount(c, st))
    ensures c.rob[j].pc == RefRun(sys.prog, s, j).pc
  {
    hide Matches, WfProg, Supported, RefStep;
    assert Supported(sys.prog, RefRun(sys.prog, s, 0));
    assert RefRun(sys.prog, s, 1) == RefStep(sys.prog, RefRun(sys.prog, s, 0));
    assert StepCount(c, st) > 1 ==> Supported(sys.prog, RefRun(sys.prog, s, 1));
    RetirePcs(sys, c, s, RefStep(sys.prog, s), x);
  }

  lemma StepMatches(sys: Sys, s: Arch, c: State, st: Step, x: Aux) returns (x': Aux)
    requires sys.Wf() && |s.regs| == |sys.bankA| && Shape(sys, c) && Enabled(sys, c, st)
    requires Matches(sys, c, s, x) && Supported(sys.prog, s) && SupportedUpTo(sys, s, StepCount(c, st))
    ensures Matches(sys, Next(sys, c, st), RefRun(sys.prog, s, StepCount(c, st)), x')
  {
    hide Matches, Shape, WfProg, Supported, Retire, RefStep, Fetch, Allocate, Execute, CompleteOp, CanAllocate, Ready;
    assert RefRun(sys.prog, s, 1) == RefStep(sys.prog, RefRun(sys.prog, s, 0));
    assert StepCount(c, st) > 1 ==> Supported(sys.prog, RefRun(sys.prog, s, 1));
    if st.RetireStep? {
      x' := RetireMatches(sys, c, s, x);
    } else {
      x' := FrontMatches(sys, c, st, s, x);
    }
  }

  lemma StepGrows(sys: Sys, c: State, st: Step)
    requires sys.Wf() && Shape(sys, c) && Enabled(sys, c, st)
    ensures c.retired <= Next(sys, c, st).retired
  {
    hide WfProg, Shape, Enabled, Next;
    RetiredGrows(sys, c, st);
  }

  lemma StepKeeps(sys: Sys, s0: Arch, c: State, st: Step)
    requires Inv(sys, s0, c) && Shape(sys, c) && Enabled(sys, c, st)
    requires Supported(sys.prog, RefRun(sys.prog, s0, |c.retired|))
    requires SupportedUpTo(sys, s0, |Next(sys, c, st).retired|)
    ensures Inv(sys, s0, Next(sys, c, st))
  {
    hide Matches, Shape, WfProg, Enabled, SupportedUpTo, Next, InOrderPcs, RefRun;
    RetiredGrows(sys, c, st);
    var x :| Matches(sys, c, RefRun(sys.prog, s0, |c.retired|), x);
    var d := Next(sys, c, st);
    var s := RefRun(sys.prog, s0, |c.retired|);
    SupportedFrom(sys, s0, |c.retired|, |d.retired|);
    var x' := StepMatches(sys, s, c, st, x);
    RefRunSum(sys.prog, s0, |c.retired|, StepCount(c, st));
    forall k | |c.retired| <= k < |d.retired|
      ensures d.retired[k] == RefRun(sys.prog, s0, k).pc
    {
      StepPcs(sys, s, c, st, x, k - |c.retired|);
      RefRunSum(sys.prog, s0, |c.retired|, k - |c.retired|);
    }
    PcsGrow(sys, c.retired, d.retired, s0);
  }

  lemma SupportedFrom(sys: Sys, s0: Arch, n: nat, m: nat)
    requires sys.Wf() && |s0.regs| == |sys.bankA| && SupportedUpTo(sys, s0, m) && n <= m
    ensures SupportedUpTo(sys, RefRun(sys.prog, s0, n), m - n)
  {
    hide Supported, WfProg, RefRun;
    forall k | 0 <= k < m - n
      ensures Supported(sys.prog, RefRun(sys.prog, RefRun(sys.prog, s0, n), k))
    {
      RefRunSum(sys.prog, s0, n, k);
    }
  }

  /** The machine goes from c to d by the given scheduling choices. */
  ghost predicate Runs(sys: Sys, c: State, steps: seq<Step>, d: State)
    requires sys.Wf()
    decreases |steps|
  {
    if steps == [] then c == d
    else Shape(sys, c) && Enabled(sys, c, steps[0]) && Runs(sys, Next(sys, c, steps[0]), steps[1..], d)
  }

  lemma {:induction false} RunGrows(sys: Sys, c: State, steps: seq<Step>, d: State)
    requires sys.Wf() && Runs(sys, c, steps, d)
    ensures c.retired <= d.retired
    decreases |steps|
  {
    hide Shape, WfProg, Enabled, Next;
    if steps != [] {
      StepGrows(sys, c, steps[0]);
      RunGrows(sys, Next(sys, c, steps[0]), steps[1..], d);
    }
  }
}
