/** Initial states, and what holds in every reachable one. */
module Reachability {
  import opened Basics
  import opened Isa
  import opened Core
  import opened Renaming
  import opened Dataflow
  import opened DataSteps
  import opened Control
  import opened Refinement

  /** Reset: both alias tables map each architectural register to its own physical register, which holds its value;
      nothing is in flight. */
  ghost predicate Initial(sys: Sys, c: State) {
    && Shape(sys, c)
    && c.rat == c.ratR && Distinct(c.rat) && Banked(sys.bankA, sys.bankP, c.rat)
    && c.used == c.usedR == c.valid == BitsOf(c.rat, |sys.bankP|)
    && (forall a :: 0 <= a < |c.rat| ==> c.prf[c.rat[a]] == c.arch[a])
    && c.rob == [] && c.fq == [] && c.slotPc == 0 && c.targets == map[]
    && (forall s :: 0 <= s < |c.ldTbl| ==> c.ldTbl[s] == -1)
    && c.retired == []
  }

  /** Program order starts from the architectural registers, the memory and the fetch pc at reset. */
  ghost function Start(c: State): Arch {
    Arch(c.arch, c.mem, c.fetchPc, None)
  }

  ghost function HolderOf(rat: seq<nat>, p: nat): (o: Owner)
    ensures p in rat ==> o.Held? && o.a < |rat| && rat[o.a] == p
    ensures p !in rat ==> o.Free?
  {
    if p in rat then var a :| 0 <= a < |rat| && rat[a] == p; Held(a) else Free
  }

  lemma InitialRenaming(sys: Sys, c: State) returns (own: seq<Owner>)
    requires Initial(sys, c)
    ensures RenameInv(sys, View(c), own, [c.rat])
  {
    own := seq(|c.used|, p requires 0 <= p < |c.used| => HolderOf(c.rat, p));
    forall a | 0 <= a < |c.rat|
      ensures own[c.rat[a]] == Held(a)
    {
    }
  }

  lemma InitialData(sys: Sys, c: State) returns (own: seq<Owner>)
    requires sys.Wf() && Initial(sys, c)
    ensures forall fit :: DataInv(fit, sys, c, own, [c.rat])
  {
    hide RenameInv;
    own := InitialRenaming(sys, c);
  }

  lemma InitialInv(sys: Sys, c: State)
    requires sys.Wf() && Initial(sys, c)
    ensures Inv(sys, Start(c), c)
  {
    hide DataInv;
    var own := InitialData(sys, c);
    assert DataInv(true, sys, c, own, [c.rat]);
    var x := Aux(own, [c.rat], [Walker(c.fetchPc, 0)]);
    assert Matches(sys, c, RefRun(sys.prog, Start(c), |c.retired|), x);
  }

  // ----- structure, whatever the program ---------------------------------------------------------------

  /** The renaming and validity invariants, with no assumption on the program's stores. */
  ghost predicate Structured(sys: Sys, c: State) {
    exists own, rats :: DataInv(false, sys, c, own, rats)
  }

  ghost predicate Reachable(sys: Sys, c: State) {
    sys.Wf() && exists c0, steps :: Initial(sys, c0) && Runs(sys, c0, steps, c)
  }

  lemma StructuredShape(sys: Sys, c: State)
    requires Structured(sys, c)
    ensures Shape(sys, c)
  {
    hide RenameInv, SrcsOk, OpsOk, TableOk;
    var own, rats :| DataInv(false, sys, c, own, rats);
  }

  /** The retire stage ends in a recovery. */
  predicate Recovers(a: Action) {
    a.FlushTo? || a.OneThenFlush? || a.TwoThenFlush?
  }

  /** The state a recovery starts from: a mispredicted branch, and its slot if it executes one, have retired by then. */
  ghost function Unflushed(sys: Sys, c: State): State
    requires sys.Wf() && Shape(sys, c)
  {
    match Decide(c.rob)
    case OneThenFlush(_) => RetireHead(sys, c)
    case TwoThenFlush(_) =>
      RetireHeadShape(sys, c);
      RetireHead(sys, RetireHead(sys, c))
    case _ => c
  }

  lemma UnflushedStructured(sys: Sys, c: State)
    requires sys.Wf() && Shape(sys, c) && Structured(sys, c)
    ensures Structured(sys, Unflushed(sys, c)) && Shape(sys, Unflushed(sys, c))
    ensures Recovers(Decide(c.rob)) ==> Retire(sys, c) == Flush(Unflushed(sys, c), Decide(c.rob).pc)
  {
    hide DataInv, Shape, RetireHead, Flush, WfProg;
    var own, rats :| DataInv(false, sys, c, own, rats);
    match Decide(c.rob)
    case OneThenFlush(_) =>
      OneStructure(sys, c, own, rats);
      RetireHeadShape(sys, c);
    case TwoThenFlush(_) =>
      OneStructure(sys, c, own, rats);
      ControlFlagsNothing(sys, c);
      var own1, rats1 :| DataInv(false, sys, RetireHead(sys, c), own1, rats1);
      DataShape(false, sys, RetireHead(sys, c), own1, rats1);
      SecondStructure(sys, RetireHead(sys, c), own1, rats1);
      RetireHeadShape(sys, RetireHead(sys, c));
    case _ =>
  }

  lemma RetireStructure(sys: Sys, c: State, own: seq<Owner>, rats: seq<seq<nat>>)
    requires sys.Wf() && Shape(sys, c) && DataInv(false, sys, c, own, rats)
    ensures Structured(sys, Retire(sys, c))
  {
    hide DataInv, Shape, RetireHead, Flush, WfProg;
    if Recovers(Decide(c.rob)) {
      UnflushedStructured(sys, c);
      FlushStructure(sys, Unflushed(sys, c), Decide(c.rob).pc);
    } else if Decide(c.rob).One? {
      OneStructure(sys, c, own, rats);
    } else {
      assert DataInv(false, sys, c, own, rats);
    }
  }

  lemma OneStructure(sys: Sys, c: State, own: seq<Owner>, rats: seq<seq<nat>>)
    requires sys.Wf() && DataInv(false, sys, c, own, rats)
    requires !Decide(c.rob).Stall? && !Decide(c.rob).FlushTo?
    ensures Structured(sys, RetireHead(sys, c)) && !c.rob[0].loadExc
    ensures Decide(c.rob).TwoThenFlush? ==> IsControl(c.rob[0].inst)
  {
    hide RenameInv, Executed, TableOk, Aged, RetireHead;
    assert OpOk(false, |c.rat|, c.prf, c.valid, c.mem, c.rob[0]);
    var own', rats' := RetireKeeps(false, sys, c, own, rats);
  }

  lemma SecondStructure(sys: Sys, c: State, own: seq<Owner>, rats: seq<seq<nat>>)
    requires sys.Wf() && DataInv(false, sys, c, own, rats)
    requires |c.rob| > 0 && c.rob[0].stage == Complete && !c.rob[0].loadExc
    ensures Structured(sys, RetireHead(sys, c))
  {
    hide RenameInv, OpOk, TableOk, Aged, RetireHead;
    var own', rats' := RetireKeeps(false, sys, c, own, rats);
  }

  lemma FlushStructure(sys: Sys, c: State, pc: Word)
    requires Structured(sys, c)
    ensures Structured(sys, Flush(c, pc))
  {
    hide DataInv, Flush;
    var own, rats :| DataInv(false, sys, c, own, rats);
    var own', rats' := FlushKeeps(false, sys, c, pc, own, rats);
  }

  lemma StepStructure(sys: Sys, c: State, st: Step)
    requires sys.Wf() && Structured(sys, c) && Shape(sys, c) && Enabled(sys, c, st)
    ensures Structured(sys, Next(sys, c, st))
  {
    hide DataInv, WfProg, Shape, CanAllocate, Ready, Fetch, Allocate, Execute, CompleteOp, Retire;
    var own, rats :| DataInv(false, sys, c, own, rats);
    match st
    case FetchStep(take, ret) => FetchData(false, sys, c, take, ret, own, rats);
    case AllocStep => var own', rats' := AllocateKeeps(false, sys, c, own, rats);
    case ExecStep(i) => ExecuteKeeps(false, sys, c, i, own, rats);
    case CompleteStep(i) => CompleteKeeps(false, sys, c, i, own, rats);
    case RetireStep => RetireStructure(sys, c, own, rats);
    case Tick => TickData(false, sys, c, own, rats);
  }

  lemma {:induction false} RunStructure(sys: Sys, c: State, steps: seq<Step>, d: State)
    requires sys.Wf() && Structured(sys, c) && Runs(sys, c, steps, d)
    ensures Structured(sys, d)
    decreases |steps|
  {
    hide Structured, WfProg, Shape, Enabled, Next;
    if steps != [] {
      StepStructure(sys, c, steps[0]);
      RunStructure(sys, Next(sys, c, steps[0]), steps[1..], d);
    }
  }

  lemma ReachableStructured(sys: Sys, c: State)
    requires Reachable(sys, c)
    ensures sys.Wf() && Structured(sys, c) && Shape(sys, c)
  {
    hide DataInv, Initial, WfProg, Runs;
    var c0, steps :| Initial(sys, c0) && Runs(sys, c0, steps, c);
    var own := InitialData(sys, c0);
    assert DataInv(false, sys, c0, own, [c0.rat]);
    RunStructure(sys, c0, steps, c);
    StructuredShape(sys, c);
  }

  lemma HeadFlags(sys: Sys, c: State)
    requires Structured(sys, c) && |c.rob| > 0
    ensures Flags(c.rob[0])
  {
    hide RenameInv, SrcsOk, TableOk, RetiredOk, Executed;
    var own, rats :| DataInv(false, sys, c, own, rats);
    assert OpOk(false, |c.rat|, c.prf, c.valid, c.mem, c.rob[0]);
  }

  // ----- the main theorem -------------------------------------------------------------------------------

  /** Registers, memory, retired mappings and the history of retired pcs are those of in-order execution. */
  ghost predicate InOrder(sys: Sys, c: State, s0: Arch)
    requires sys.Wf() && |s0.regs| == |sys.bankA|
  {
    var s := RefRun(sys.prog, s0, |c.retired|);
    && c.arch == s.regs && c.mem == s.mem
    && |c.ratR| == |s.regs| && (forall a :: 0 <= a < |c.ratR| ==> c.ratR[a] < |c.prf| && c.prf[c.ratR[a]] == s.regs[a])
    && (forall k :: 0 <= k < |c.retired| ==> c.retired[k] == RefRun(sys.prog, s0, k).pc)
  }

  /** What has retired is in order, and if the next instruction is supported so is what will retire next. */
  ghost predicate Follows(sys: Sys, s0: Arch, c: State)
    requires sys.Wf() && |s0.regs| == |sys.bankA|
  {
    && Structured(sys, c) && InOrder(sys, c, s0)
    && (Supported(sys.prog, RefRun(sys.prog, s0, |c.retired|)) ==> Inv(sys, s0, c))
  }

  lemma InvInOrder(sys: Sys, s0: Arch, c: State)
    requires Inv(sys, s0, c)
    ensures InOrder(sys, c, s0)
  {
    hide RenameInv, TableOk, Aged, PathInv, RefStep, OpsOk, SrcsOk;
    var x :| Matches(sys, c, RefRun(sys.prog, s0, |c.retired|), x);
  }

  /** Steps that retire nothing leave the registers, the memory and the retired mappings in order. */
  lemma IdleInOrder(sys: Sys, s0: Arch, c: State, st: Step)
    requires sys.Wf() && |s0.regs| == |sys.bankA| && Shape(sys, c) && Enabled(sys, c, st) && StepCount(c, st) == 0
    requires InOrder(sys, c, s0) && Structured(sys, Next(sys, c, st))
    ensures InOrder(sys, Next(sys, c, st), s0)
  {
    hide WfProg, Enabled, Next, RefRun, RenameInv, OpsOk, SrcsOk, TableOk, Aged, StepCount;
    NothingRetired(sys, c, st);
    var d := Next(sys, c, st);
    var own, rats :| DataInv(false, sys, d, own, rats);
  }

  lemma StepFollows(sys: Sys, s0: Arch, c: State, st: Step)
    requires sys.Wf() && |s0.regs| == |sys.bankA| && Follows(sys, s0, c) && Shape(sys, c) && Enabled(sys, c, st)
    requires SupportedUpTo(sys, s0, |Next(sys, c, st).retired|)
    ensures Follows(sys, s0, Next(sys, c, st))
  {
    hide WfProg, Shape, Enabled, Next, RefRun, Structured, InOrder, Inv, Supported;
    StepStructure(sys, c, st);
    RetiredGrows(sys, c, st);
    if Supported(sys.prog, RefRun(sys.prog, s0, |c.retired|)) {
      StepKeeps(sys, s0, c, st);
      InvInOrder(sys, s0, Next(sys, c, st));
    } else {
      IdleInOrder(sys, s0, c, st);
    }
  }

  lemma {:induction false} RunFollows(sys: Sys, s0: Arch, c: State, steps: seq<Step>, d: State)
    requires sys.Wf() && |s0.regs| == |sys.bankA| && Follows(sys, s0, c) && Runs(sys, c, steps, d)
    requires SupportedUpTo(sys, s0, |d.retired|)
    ensures Follows(sys, s0, d)
    decreases |steps|
  {
    hide WfProg, Shape, Enabled, Next, Follows, Supported;
    if steps != [] {
      RunGrows(sys, Next(sys, c, steps[0]), steps[1..], d);
      StepFollows(sys, s0, c, steps[0]);
      RunFollows(sys, s0, Next(sys, c, steps[0]), steps[1..], d);
    }
  }

  lemma InitialFollows(sys: Sys, c: State)
    requires sys.Wf() && Initial(sys, c)
    ensures |Start(c).regs| == |sys.bankA| && Follows(sys, Start(c), c)
  {
    hide Inv, InOrder, DataInv;
    InitialInv(sys, c);
    InvInOrder(sys, Start(c), c);
    var own := InitialData(sys, c);
    assert DataInv(false, sys, c, own, [c.rat]);
  }

  /** For every program, predictor answer and interleaving of fetch, allocate, execute, complete, retire and
      recovery: after k retirements the machine is where in-order execution is after k instructions, provided those k
      are supported. */
  lemma OutOfOrderRefinesInOrder(sys: Sys, c: State, steps: seq<Step>, d: State)
    requires sys.Wf() && Initial(sys, c) && Runs(sys, c, steps, d)
    requires SupportedUpTo(sys, Start(c), |d.retired|)
    ensures InOrder(sys, d, Start(c))
  {
    hide Initial, Runs, Inv, InOrder;
    InitialFollows(sys, c);
    RunFollows(sys, Start(c), c, steps, d);
  }

  /** If the instruction after them is supported too, everything in flight is accounted for. */
  lemma RunInv(sys: Sys, c: State, steps: seq<Step>, d: State)
    requires sys.Wf() && Initial(sys, c) && Runs(sys, c, steps, d)
    requires SupportedUpTo(sys, Start(c), |d.retired| + 1)
    ensures Inv(sys, Start(c), d)
  {
    hide Initial, Runs, Inv, InOrder, RefRun, Supported;
    InitialFollows(sys, c);
    RunFollows(sys, Start(c), c, steps, d);
  }
}
