/** The interpreter run alongside the core: it advances by whole calls of execMips whenever it stands at the pc that
    retires, and before the ops that retire without an exception their registers are compared. */
module CrossCheck {
  import opened Basics
  import opened Isa
  import opened Core
  import opened Dataflow
  import opened Control
  import opened Refinement
  import opened Reachability

  /** Where the interpreter is, and whether a comparison has failed and stopped the simulation. */
  datatype Checker = Checker(s: Arch, failed: bool)

  ghost predicate SameOn(compared: set<Reg>, a: seq<Word>, b: seq<Word>) {
    forall r :: r in compared && r < |a| && r < |b| ==> a[r] == b[r]
  }

  ghost function Call(prog: Prog, s: Arch): (r: Arch)
    requires WfProg(|s.regs|, prog)
    ensures |r.regs| == |s.regs|
  {
    RefRun(prog, s, CallLength(prog, s))
  }

  /** What one step of the core does to the checker: an op that retires alone and undisturbed is compared; a
      mispredicted one, with or without its delay slot, only moves the interpreter on. */
  ghost function Check(sys: Sys, compared: set<Reg>, c: State, st: Step, k: Checker): (k': Checker)
    requires sys.Wf() && |k.s.regs| == |sys.bankA|
    ensures |k'.s.regs| == |sys.bankA|
  {
    if k.failed || !st.RetireStep? || RetireCount(c.rob) == 0 || k.s.pc != c.rob[0].pc then k
    else if Decide(c.rob).One? && !SameOn(compared, k.s.regs, c.arch) then k.(failed := true)
    else k.(s := Call(sys.prog, k.s))
  }

  ghost predicate CheckedRun(sys: Sys, compared: set<Reg>, c: State, k: Checker, steps: seq<Step>, d: State,
                             k': Checker)
    requires sys.Wf() && |k.s.regs| == |sys.bankA|
    decreases |steps|
  {
    if steps == [] then c == d && k == k'
    else
      && Shape(sys, c) && Enabled(sys, c, steps[0])
      && CheckedRun(sys, compared, Next(sys, c, steps[0]), Check(sys, compared, c, steps[0], k), steps[1..], d, k')
  }

  // ----- how far the interpreter is ahead ----------------------------------------------------------------------

  /** With n instructions retired the interpreter has executed n; or one more, because n is a delay slot or is a slot's
      second execution, which moves on to another pc. */
  ghost predicate Ahead(prog: Prog, s0: Arch, n: nat, s: Arch)
    requires WfProg(|s0.regs|, prog)
  {
    var next := RefRun(prog, s0, n);
    || (next.pend.None? && s == next)
    || (s == RefRun(prog, s0, n + 1) && (next.pend.Some? || (!IsControl(prog(next.pc)) && s.pc != next.pc)))
  }

  /** Instruction n is a delay slot that its branch jumps to and that changes a compared register. */
  ghost predicate ReentersSlot(prog: Prog, s0: Arch, compared: set<Reg>, n: nat)
    requires WfProg(|s0.regs|, prog)
  {
    var next := RefRun(prog, s0, n);
    next.pend == Some(next.pc) && !SameOn(compared, RefRun(prog, s0, n + 1).regs, next.regs)
  }

  lemma CallFrom(prog: Prog, s0: Arch, n: nat)
    requires WfProg(|s0.regs|, prog)
    ensures Call(prog, RefRun(prog, s0, n)) == RefRun(prog, s0, n + CallLength(prog, RefRun(prog, s0, n)))
  {
    hide RefStep, RefRun, CallLength, WfProg;
    RefRunSum(prog, s0, n, CallLength(prog, RefRun(prog, s0, n)));
  }

  lemma NextPend(prog: Prog, s: Arch)
    requires WfProg(|s.regs|, prog)
    ensures var r := RefStep(prog, s);
            && (r.pend.Some? <==> CallLength(prog, s) == 2)
            && (!IsControl(prog(s.pc)) ==> r.pc == if s.pend.Some? then s.pend.value else Wrap(s.pc + 4))
  {
    hide WfInst, Results, WriteRegs, WriteBytes, StoreBytes, EffAddr, BranchTarget, JumpTarget, Wrap;
  }

  /** What the retire stage's decision says about the next instruction. */
  lemma DecisionFacts(sys: Sys, c: State, s: Arch, x: Aux)
    requires sys.Wf() && Matches(sys, c, s, x) && |s.regs| == |sys.bankA| && Supported(sys.prog, s)
    requires RetireCount(c.rob) > 0
    ensures c.rob[0].pc == s.pc && c.arch == s.regs
    ensures !Decide(c.rob).One? ==> IsControl(sys.prog(s.pc)) && CallLength(sys.prog, s) == RetireCount(c.rob)
    ensures Decide(c.rob).One? ==> RetireCount(c.rob) == 1
  {
    hide DataInv, PathInv, Agree, Operands, WfInst;
    HeadFacts(sys, c, s, x);
  }

  // ----- one step -----------------------------------------------------------------------------------------------

  /** The core retires at instruction n and the interpreter is as far as Ahead says. */
  lemma RetireChecked(sys: Sys, s0: Arch, compared: set<Reg>, c: State, k: Checker, x: Aux, n: nat)
    requires sys.Wf() && |s0.regs| == |sys.bankA| && |k.s.regs| == |sys.bankA| && n == |c.retired|
    requires Matches(sys, c, RefRun(sys.prog, s0, n), x) && RetireCount(c.rob) > 0
    requires SupportedUpTo(sys, s0, n + RetireCount(c.rob)) && !k.failed && Ahead(sys.prog, s0, n, k.s)
    ensures var k' := Check(sys, compared, c, RetireStep, k);
            && (k'.failed <==> ReentersSlot(sys.prog, s0, compared, n))
            && (!k'.failed ==> Ahead(sys.prog, s0, n + RetireCount(c.rob), k'.s))
  {
    hide Matches, Supported, RefRun, RefStep, WfProg, SameOn, CallLength, Call, RetireCount;
    var s := RefRun(sys.prog, s0, n);
    assert Supported(sys.prog, s);
    DecisionFacts(sys, c, s, x);
    NextInOrder(sys.prog, s0, n);
    NextPend(sys.prog, s);
    if s.pend.Some? {
      SlotNeverNuked(sys, c, s, x);
      SlotNotControl(sys.prog, s);
    }
    if k.s == s && s.pend.None? {
      SyncChecked(sys, s0, compared, c, k, n);
    } else {
      AheadChecked(sys, s0, compared, c, k, n);
    }
  }

  lemma SlotNotControl(prog: Prog, s: Arch)
    requires WfProg(|s.regs|, prog) && Supported(prog, s) && s.pend.Some?
    ensures !IsControl(prog(s.pc)) && CallLength(prog, s) == 1
  {
  }

  /** The interpreter is where the core is: the comparison cannot fail, and the interpreter's call takes it as far as
      the core goes, or one further into the slot. */
  lemma SyncChecked(sys: Sys, s0: Arch, compared: set<Reg>, c: State, k: Checker, n: nat)
    requires sys.Wf() && |s0.regs| == |sys.bankA| && |k.s.regs| == |sys.bankA| && RetireCount(c.rob) > 0
    requires var s := RefRun(sys.prog, s0, n);
             && s.pend.None? && k == Checker(s, false) && c.rob[0].pc == s.pc && c.arch == s.regs
             && (!Decide(c.rob).One? ==> IsControl(sys.prog(s.pc)) && CallLength(sys.prog, s) == RetireCount(c.rob))
             && (Decide(c.rob).One? ==> RetireCount(c.rob) == 1)
    requires SupportedUpTo(sys, s0, n + RetireCount(c.rob))
    ensures var k' := Check(sys, compared, c, RetireStep, k);
            !k'.failed && Ahead(sys.prog, s0, n + RetireCount(c.rob), k'.s)
  {
    hide Supported, RefRun, RefStep, WfProg, CallLength, Call, RetireCount;
    var s := RefRun(sys.prog, s0, n);
    CallFrom(sys.prog, s0, n);
    NextInOrder(sys.prog, s0, n);
    NextPend(sys.prog, s);
    CallOneOrTwo(sys.prog, s);
    if CallLength(sys.prog, s) == 2 && !Decide(c.rob).One? {
      var mid := RefRun(sys.prog, s0, n + 1);
      assert Supported(sys.prog, mid);
      SlotNotControl(sys.prog, mid);
      NextInOrder(sys.prog, s0, n + 1);
      NextPend(sys.prog, mid);
    }
  }

  lemma CallOneOrTwo(prog: Prog, s: Arch)
    requires WfProg(|s.regs|, prog)
    ensures CallLength(prog, s) == 1 || CallLength(prog, s) == 2
    ensures !IsControl(prog(s.pc)) ==> CallLength(prog, s) == 1
  {
  }

  /** The interpreter is one ahead: it stands aside while the core catches up, unless the slot's target is the slot. */
  lemma AheadChecked(sys: Sys, s0: Arch, compared: set<Reg>, c: State, k: Checker, n: nat)
    requires sys.Wf() && |s0.regs| == |sys.bankA| && |k.s.regs| == |sys.bankA| && RetireCount(c.rob) > 0
    requires var s := RefRun(sys.prog, s0, n);
             && c.rob[0].pc == s.pc && c.arch == s.regs && !IsControl(sys.prog(s.pc))
             && Decide(c.rob).One? && RetireCount(c.rob) == 1
             && k == Checker(RefRun(sys.prog, s0, n + 1), false) && (s.pend.None? ==> k.s.pc != s.pc)
    ensures var k' := Check(sys, compared, c, RetireStep, k);
            && (k'.failed <==> ReentersSlot(sys.prog, s0, compared, n))
            && (!k'.failed ==> Ahead(sys.prog, s0, n + 1, k'.s))
  {
    hide Supported, RefRun, RefStep, WfProg, CallLength, Call, RetireCount;
    var s := RefRun(sys.prog, s0, n);
    NextInOrder(sys.prog, s0, n);
    NextPend(sys.prog, s);
    CallOneOrTwo(sys.prog, s);
    if k.s.pc == s.pc {
      CallFrom(sys.prog, s0, n + 1);
      NextInOrder(sys.prog, s0, n + 1);
      NextPend(sys.prog, k.s);
      CallOneOrTwo(sys.prog, k.s);
    }
  }

  lemma StepChecked(sys: Sys, s0: Arch, compared: set<Reg>, c: State, k: Checker, st: Step)
    requires sys.Wf() && |s0.regs| == |sys.bankA| && |k.s.regs| == |sys.bankA|
    requires Follows(sys, s0, c) && Shape(sys, c) && Enabled(sys, c, st)
    requires SupportedUpTo(sys, s0, |Next(sys, c, st).retired|) && !k.failed && Ahead(sys.prog, s0, |c.retired|, k.s)
    ensures var k' := Check(sys, compared, c, st, k);
            && (k'.failed <==> StepCount(c, st) > 0 && ReentersSlot(sys.prog, s0, compared, |c.retired|))
            && (!k'.failed ==> Ahead(sys.prog, s0, |Next(sys, c, st).retired|, k'.s))
  {
    hide WfProg, Shape, Enabled, Next, RefRun, Structured, InOrder, Supported, Matches, RetireCount, InOrderPcs,
      ReentersSlot, Ahead, SameOn, Call;
    RetiredGrows(sys, c, st);
    if StepCount(c, st) > 0 {
      assert Supported(sys.prog, RefRun(sys.prog, s0, |c.retired|));
      var x :| Matches(sys, c, RefRun(sys.prog, s0, |c.retired|), x);
      RetireChecked(sys, s0, compared, c, k, x, |c.retired|);
    }
  }

  // ----- runs ---------------------------------------------------------------------------------------------------

  lemma {:induction false} CheckedIsRun(sys: Sys, compared: set<Reg>, c: State, k: Checker, steps: seq<Step>, d: State,
                                        k': Checker)
    requires sys.Wf() && |k.s.regs| == |sys.bankA| && CheckedRun(sys, compared, c, k, steps, d, k')
    ensures Runs(sys, c, steps, d) && |k'.s.regs| == |sys.bankA|
    decreases |steps|
  {
    hide WfProg, Shape, Enabled, Next, Check;
    if steps != [] {
      var k1 := Check(sys, compared, c, steps[0], k);
      CheckedIsRun(sys, compared, Next(sys, c, steps[0]), k1, steps[1..], d, k');
    }
  }

  lemma {:induction false} RunIsChecked(sys: Sys, compared: set<Reg>, c: State, k: Checker, steps: seq<Step>, d: State)
    returns (k': Checker)
    requires sys.Wf() && |k.s.regs| == |sys.bankA| && Runs(sys, c, steps, d)
    ensures CheckedRun(sys, compared, c, k, steps, d, k')
    decreases |steps|
  {
    hide WfProg, Shape, Enabled, Next, Check;
    k' := k;
    if steps != [] {
      var k1 := Check(sys, compared, c, steps[0], k);
      k' := RunIsChecked(sys, compared, Next(sys, c, steps[0]), k1, steps[1..], d);
    }
  }

  lemma {:induction false} FailedStays(sys: Sys, compared: set<Reg>, c: State, k: Checker, steps: seq<Step>, d: State,
                                       k': Checker)
    requires sys.Wf() && |k.s.regs| == |sys.bankA| && CheckedRun(sys, compared, c, k, steps, d, k') && k.failed
    ensures k' == k
    decreases |steps|
  {
    hide WfProg, Shape, Enabled, Next;
    if steps != [] {
      FailedStays(sys, compared, Next(sys, c, steps[0]), k, steps[1..], d, k');
    }
  }

  /** If the checker has not failed the interpreter is as far as the core, or in the slot ahead of it; if it has, a slot
      that re-enters itself has retired. */
  lemma {:induction false} RunChecked(sys: Sys, s0: Arch, compared: set<Reg>, c: State, k: Checker, steps: seq<Step>,
                                      d: State, k': Checker)
    requires sys.Wf() && |s0.regs| == |sys.bankA| && |k.s.regs| == |sys.bankA|
    requires Follows(sys, s0, c) && CheckedRun(sys, compared, c, k, steps, d, k')
    requires SupportedUpTo(sys, s0, |d.retired|) && !k.failed && Ahead(sys.prog, s0, |c.retired|, k.s)
    ensures k'.failed ==> exists n :: |c.retired| <= n < |d.retired| && ReentersSlot(sys.prog, s0, compared, n)
    ensures !k'.failed ==> Ahead(sys.prog, s0, |d.retired|, k'.s)
    decreases |steps|
  {
    hide WfProg, Shape, Enabled, Next, Follows, Supported, Check, Ahead, ReentersSlot;
    if steps != [] {
      var b, k1 := Next(sys, c, steps[0]), Check(sys, compared, c, steps[0], k);
      CheckedIsRun(sys, compared, b, k1, steps[1..], d, k');
      RunGrows(sys, b, steps[1..], d);
      RetiredGrows(sys, c, steps[0]);
      StepChecked(sys, s0, compared, c, k, steps[0]);
      if k1.failed {
        FailedStays(sys, compared, b, k1, steps[1..], d, k');
      } else {
        StepFollows(sys, s0, c, steps[0]);
        RunChecked(sys, s0, compared, b, k1, steps[1..], d, k');
      }
    }
  }

  lemma StartsTogether(sys: Sys, c: State)
    requires sys.Wf() && Initial(sys, c)
    ensures |Start(c).regs| == |sys.bankA| && Follows(sys, Start(c), c) && c.retired == []
    ensures Ahead(sys.prog, Start(c), 0, Start(c))
  {
    hide Follows;
    InitialFollows(sys, c);
  }

  /** The check reports an error exactly when a delay slot retires that its branch jumped to and that changes a
      compared register: the interpreter, one slot ahead, then stands at the slot's pc again. */
  lemma CrossCheckExact(sys: Sys, compared: set<Reg>, c: State, steps: seq<Step>, d: State, k: Checker, st: Step)
    requires sys.Wf() && Initial(sys, c) && CheckedRun(sys, compared, c, Checker(Start(c), false), steps, d, k)
    requires !k.failed && |k.s.regs| == |sys.bankA| && Shape(sys, d) && Enabled(sys, d, st)
    requires SupportedUpTo(sys, Start(c), |Next(sys, d, st).retired|)
    ensures Check(sys, compared, d, st, k).failed <==>
            StepCount(d, st) > 0 && ReentersSlot(sys.prog, Start(c), compared, |d.retired|)
  {
    hide Initial, WfProg, Shape, Enabled, Next, Follows, Supported, Check, Ahead, ReentersSlot, StepCount, CheckedRun;
    StartsTogether(sys, c);
    CheckedIsRun(sys, compared, c, Checker(Start(c), false), steps, d, k);
    RetiredGrows(sys, d, st);
    RunFollows(sys, Start(c), c, steps, d);
    RunChecked(sys, Start(c), compared, c, Checker(Start(c), false), steps, d, k);
    StepChecked(sys, Start(c), compared, d, k, st);
  }

  /** Of a supported program without such a slot the check never reports an error, whatever the schedule, the predictors
      and the registers compared. */
  lemma CrossCheckPasses(sys: Sys, compared: set<Reg>, c: State, steps: seq<Step>, d: State, k: Checker)
    requires sys.Wf() && Initial(sys, c) && CheckedRun(sys, compared, c, Checker(Start(c), false), steps, d, k)
    requires SupportedUpTo(sys, Start(c), |d.retired|)
    requires forall n :: 0 <= n < |d.retired| ==> !ReentersSlot(sys.prog, Start(c), compared, n)
    ensures !k.failed && Ahead(sys.prog, Start(c), |d.retired|, k.s)
  {
    hide Initial, WfProg, Follows, Supported, Ahead, ReentersSlot, CheckedRun;
    StartsTogether(sys, c);
    RunChecked(sys, Start(c), compared, c, Checker(Start(c), false), steps, d, k);
  }
}
