/** Concrete runs on which the core and the interpreter part ways, or their comparison reports that they do. */
module Divergences {
  import opened Basics
  import opened Isa
  import opened Core
  import opened Refinement
  import opened Reachability
  import opened Schedules
  import opened CrossCheck

  // ----- what a step does to an op without operands ------------------------------------------------------------

  predicate Plain(inst: Inst) {
    inst.Alu? && inst.dests == [] && inst.srcs == []
  }

  lemma FetchPlain(sys: Sys, c: State)
    requires c.slotPc == 0 && c.fetchPc !in c.targets && !IsControl(sys.prog(c.fetchPc))
    ensures Fetch(sys, c, false, 0) ==
            c.(fq := c.fq + [Fetched(c.fetchPc, sys.prog(c.fetchPc), Wrap(c.fetchPc + 4), false)],
               fetchPc := Wrap(c.fetchPc + 4), slotPc := 0)
  {
  }

  lemma AllocPlain(sys: Sys, c: State)
    requires sys.Wf() && Shape(sys, c) && |c.fq| > 0 && |c.rob| < sys.robCap && !c.fq[0].inst.Load?
    requires Dests(c.fq[0].inst) == []
    ensures CanAllocate(sys, c)
    ensures var f := c.fq[0];
            Allocate(sys, c) ==
            c.(rob := c.rob + [Op(f.pc, f.inst, f.npc, f.taken, ReadSrcs(c.rat, f.inst.srcs), [], -1, c.cycle, Waiting,
                                  0, [], false, false, f.inst.Jump?, 0)],
               nextId := c.nextId + 1, fq := c.fq[1..])
  {
    hide WfProg;
  }

  lemma ExecPlain(sys: Sys, c: State, i: nat)
    requires sys.Wf() && Shape(sys, c) && i < |c.rob| && c.rob[i].stage == Waiting && Plain(c.rob[i].inst)
    ensures Enabled(sys, c, ExecStep(i)) && Execute(sys, c, i) == c.(rob := c.rob[i := c.rob[i].(stage := Issued)])
  {
    hide WfProg;
    assert OpShape(sys, c, c.rob[i]);
  }

  lemma CompletePlain(sys: Sys, c: State, i: nat)
    requires sys.Wf() && Shape(sys, c) && i < |c.rob| && c.rob[i].stage == Issued && Dests(c.rob[i].inst) == []
    requires !c.rob[i].inst.Load?
    ensures CompleteOp(sys, c, i) == c.(rob := c.rob[i := c.rob[i].(stage := Complete)])
  {
    hide WfProg;
    assert OpShape(sys, c, c.rob[i]);
  }

  lemma RetirePlain(sys: Sys, c: State)
    requires sys.Wf() && Shape(sys, c) && Decide(c.rob) == One && Plain(c.rob[0].inst)
    ensures Retire(sys, c) == c.(rob := c.rob[1..], retired := c.retired + [c.rob[0].pc])
  {
    hide WfProg;
    assert OpShape(sys, c, c.rob[0]);
  }

  // ----- register 0 ------------------------------------------------------------------------------------------

  /** An R-type op that writes 1 to register 0. */
  function WritesOne(): Inst {
    RType(0, [], (vals: seq<Word>) => 1)
  }

  function OnesProg(): Prog {
    (pc: Word) => WritesOne()
  }

  const ONES := Sys(OnesProg(), [0], [0, 0], 2)

  function Zero0(mem: Mem): State {
    State([0], [0], [true, false], [true, false], [true, false], [0, 0], [0], mem, [], 0, [], [], 0, 0, map[], 0, [])
  }

  function Zero1(mem: Mem): State {
    Zero0(mem).(fq := [Fetched(0, WritesOne(), 4, false)], fetchPc := 4)
  }

  function ZeroOp(stage: Stage): Op {
    Op(0, WritesOne(), 4, false, [], [], -1, 0, stage, 0, [], false, false, false, 0)
  }

  function Zero2(mem: Mem, stage: Stage): State {
    Zero1(mem).(fq := [], rob := [ZeroOp(stage)], nextId := 1)
  }

  function Zero5(mem: Mem): State {
    Zero2(mem, Complete).(rob := [], retired := [0])
  }

  lemma ZeroInitial(mem: Mem)
    ensures ONES.Wf() && Initial(ONES, Zero0(mem))
  {
    var c := Zero0(mem);
    assert BitsOf(c.rat, 2) == [true, false];
  }

  lemma ZeroFetch(mem: Mem)
    requires ONES.Wf() && Shape(ONES, Zero0(mem))
    ensures Enabled(ONES, Zero0(mem), FetchStep(false, 0)) && Next(ONES, Zero0(mem), FetchStep(false, 0)) == Zero1(mem)
  {
  }

  lemma ZeroAlloc(mem: Mem)
    requires ONES.Wf() && Shape(ONES, Zero1(mem))
    ensures Enabled(ONES, Zero1(mem), AllocStep) && Next(ONES, Zero1(mem), AllocStep) == Zero2(mem, Waiting)
  {
  }

  lemma ZeroExec(mem: Mem)
    requires ONES.Wf() && Shape(ONES, Zero2(mem, Waiting))
    ensures Enabled(ONES, Zero2(mem, Waiting), ExecStep(0))
    ensures Next(ONES, Zero2(mem, Waiting), ExecStep(0)) == Zero2(mem, Issued)
  {
  }

  lemma ZeroComplete(mem: Mem)
    requires ONES.Wf() && Shape(ONES, Zero2(mem, Issued))
    ensures Enabled(ONES, Zero2(mem, Issued), CompleteStep(0))
    ensures Next(ONES, Zero2(mem, Issued), CompleteStep(0)) == Zero2(mem, Complete)
  {
  }

  lemma ZeroRetire(mem: Mem)
    requires ONES.Wf() && Shape(ONES, Zero2(mem, Complete))
    ensures Enabled(ONES, Zero2(mem, Complete), RetireStep)
    ensures Next(ONES, Zero2(mem, Complete), RetireStep) == Zero5(mem)
  {
  }

  lemma ZeroOutOfOrder(mem: Mem)
    requires ONES.Wf()
    ensures !InOrder(ONES, Zero5(mem), Start(Zero0(mem)))
  {
    var s0 := Start(Zero0(mem));
    assert RefRun(ONES.prog, s0, 1) == RefStep(ONES.prog, RefRun(ONES.prog, s0, 0));
  }

  /** Five steps: the op retires, and the register the interpreter wrote still holds 0. */
  lemma RegisterZeroDiverges(mem: Mem) returns (steps: seq<Step>)
    ensures ONES.Wf() && Initial(ONES, Zero0(mem)) && Runs(ONES, Zero0(mem), steps, Zero5(mem))
    ensures !InOrder(ONES, Zero5(mem), Start(Zero0(mem)))
  {
    ZeroInitial(mem);
    hide At, Initial, Runs, Shape, WfProg, Enabled, Next, InOrder, Zero0, Zero1, Zero2, Zero5;
    var c0, c1, c2, c3 := Zero0(mem), Zero1(mem), Zero2(mem, Waiting), Zero2(mem, Issued);
    Begin(ONES, c0);
    ZeroFetch(mem);
    steps := Go(ONES, c0, [], c0, FetchStep(false, 0), c1);
    ZeroAlloc(mem);
    steps := Go(ONES, c0, steps, c1, AllocStep, c2);
    ZeroExec(mem);
    steps := Go(ONES, c0, steps, c2, ExecStep(0), c3);
    ZeroComplete(mem);
    steps := Go(ONES, c0, steps, c3, CompleteStep(0), Zero2(mem, Complete));
    ZeroRetire(mem);
    steps := Go(ONES, c0, steps, Zero2(mem, Complete), RetireStep, Zero5(mem));
    Ends(ONES, c0, steps, Zero5(mem));
    ZeroOutOfOrder(mem);
  }

  // ----- a delay slot at address 0 -----------------------------------------------------------------------------

  const TOP: Word := 0xFFFF_FFFC

  function Nop(): Inst {
    Alu([], [], (vals: seq<Word>) => (0, 0))
  }

  /** A branch always taken, to address 16 when it stands at the last word: fetch predicts it taken. */
  function Back(): Inst {
    Branch([], (vals: seq<Word>) => true, 4, false, NonLikelyOpcode)
  }

  function TopProg(): Prog {
    (pc: Word) => if pc == TOP then Back() else Nop()
  }

  const LAST := Sys(TopProg(), [], [], 2)

  function Last(mem: Mem, fq: seq<Fetched>, fetchPc: Word, rob: seq<Op>, nextId: nat, targets: map<Word, Word>,
                retired: seq<Word>): State
  {
    State([], [], [], [], [], [], [], mem, rob, nextId, [], fq, fetchPc, 0, targets, 0, retired)
  }

  const BACK_FETCHED := Fetched(TOP, Back(), 16, true)
  const TARGET_FETCHED := Fetched(16, Nop(), 20, false)
  const BACK_WAITS := Op(TOP, Back(), 16, true, [], [], -1, 0, Waiting, 0, [], false, false, false, 0)

  function BackOp(stage: Stage): Op {
    BACK_WAITS.(stage := stage, hasDelay := true, correctPc := 16)
  }

  function TargetOp(stage: Stage): Op {
    Op(16, Nop(), 20, false, [], [], -1, 0, stage, 0, [], false, false, false, 0)
  }

  function LastStart(mem: Mem): State {
    Last(mem, [], TOP, [], 0, map[], [])
  }

  /** After the two fetches, after the two allocations, and at the end. */
  function LastFetched(mem: Mem): State {
    Last(mem, [BACK_FETCHED, TARGET_FETCHED], 20, [], 0, map[], [])
  }

  function LastFilled(mem: Mem): State {
    Last(mem, [], 20, [BACK_WAITS, TargetOp(Waiting)], 2, map[], [])
  }

  function LastEnd(mem: Mem): State {
    Last(mem, [], 20, [], 2, map[TOP := 16], [TOP, 16])
  }

  lemma LastInitial(mem: Mem)
    ensures LAST.Wf() && Initial(LAST, LastStart(mem))
  {
    var none: seq<nat> := [];
    assert BitsOf(none, 0) == [];
    forall pc: Word
      ensures WfInst(0, LAST.prog(pc))
    {
      assert LAST.prog(pc) == if pc == TOP then Back() else Nop();
    }
  }

  lemma LastFetch(mem: Mem)
    ensures Fetch(LAST, LastStart(mem), false, 0) == Last(mem, [BACK_FETCHED], 16, [], 0, map[], [])
  {
  }

  lemma BackExec(mem: Mem, op: Op)
    requires LAST.Wf()
    requires Shape(LAST, Last(mem, [], 20, [BACK_WAITS, op], 2, map[], []))
    ensures var c := Last(mem, [], 20, [BACK_WAITS, op], 2, map[], []);
            Enabled(LAST, c, ExecStep(0)) &&
            Execute(LAST, c, 0) == Last(mem, [], 20, [BackOp(Issued), op], 2, map[], [])
  {
    hide WfProg;
  }

  lemma BackRetire(mem: Mem)
    requires LAST.Wf()
    requires Shape(LAST, Last(mem, [], 20, [BackOp(Complete), TargetOp(Complete)], 2, map[], []))
    ensures Retire(LAST, Last(mem, [], 20, [BackOp(Complete), TargetOp(Complete)], 2, map[], [])) ==
            Last(mem, [], 20, [TargetOp(Complete)], 2, map[TOP := 16], [TOP])
  {
    hide WfProg;
  }

  lemma LastOutOfOrder(mem: Mem)
    requires LAST.Wf()
    ensures !InOrder(LAST, LastEnd(mem), Start(LastStart(mem)))
  {
    var s0 := Start(LastStart(mem));
    assert RefRun(LAST.prog, s0, 1) == RefStep(LAST.prog, RefRun(LAST.prog, s0, 0));
  }

  lemma LastBegin(mem: Mem) returns (steps: seq<Step>)
    ensures At(LAST, LastStart(mem), steps, LastFetched(mem))
    ensures LAST.Wf() && Shape(LAST, LastFetched(mem))
  {
    LastInitial(mem);
    hide At, Initial, Runs, Shape, WfProg, Fetch;
    var c0 := LastStart(mem);
    Begin(LAST, c0);
    LastFetch(mem);
    var c1 := Last(mem, [BACK_FETCHED], 16, [], 0, map[], []);
    steps := Go(LAST, c0, [], c0, FetchStep(false, 0), c1);
    assert LAST.prog(c1.fetchPc) == Nop();
    FetchPlain(LAST, c1);
    steps := Go(LAST, c0, steps, c1, FetchStep(false, 0), LastFetched(mem));
  }

  lemma LastFinish(mem: Mem, steps: seq<Step>) returns (steps': seq<Step>)
    requires At(LAST, LastStart(mem), steps, LastFilled(mem))
    requires LAST.Wf() && Shape(LAST, LastFilled(mem))
    ensures Runs(LAST, LastStart(mem), steps', LastEnd(mem))
  {
    hide At, Initial, Runs, Shape, WfProg, Ready, Execute, CompleteOp, Retire;
    var c0 := LastStart(mem);
    var c4 := LastFilled(mem);
    BackExec(mem, TargetOp(Waiting));
    var c5 := Last(mem, [], 20, [BackOp(Issued), TargetOp(Waiting)], 2, map[], []);
    steps' := Go(LAST, c0, steps, c4, ExecStep(0), c5);
    CompletePlain(LAST, c5, 0);
    var c6 := Last(mem, [], 20, [BackOp(Complete), TargetOp(Waiting)], 2, map[], []);
    steps' := Go(LAST, c0, steps', c5, CompleteStep(0), c6);
    ExecPlain(LAST, c6, 1);
    var c7 := Last(mem, [], 20, [BackOp(Complete), TargetOp(Issued)], 2, map[], []);
    steps' := Go(LAST, c0, steps', c6, ExecStep(1), c7);
    CompletePlain(LAST, c7, 1);
    var c8 := Last(mem, [], 20, [BackOp(Complete), TargetOp(Complete)], 2, map[], []);
    steps' := Go(LAST, c0, steps', c7, CompleteStep(1), c8);
    BackRetire(mem);
    var c9 := Last(mem, [], 20, [TargetOp(Complete)], 2, map[TOP := 16], [TOP]);
    steps' := Go(LAST, c0, steps', c8, RetireStep, c9);
    RetirePlain(LAST, c9);
    steps' := Go(LAST, c0, steps', c9, RetireStep, LastEnd(mem));
    Ends(LAST, c0, steps', LastEnd(mem));
  }

  /** Ten steps: the branch at the last word is followed by its target, and the slot at address 0 never retires. */
  lemma SlotZeroDiverges(mem: Mem) returns (steps: seq<Step>)
    ensures var c0 := LastStart(mem);
            var d := LastEnd(mem);
            LAST.Wf() && Initial(LAST, c0) && Runs(LAST, c0, steps, d) && !InOrder(LAST, d, Start(c0))
  {
    hide At, Initial, Runs, Shape, WfProg, InOrder, CanAllocate, Allocate;
    var c0 := LastStart(mem);
    var c2 := LastFetched(mem);
    steps := LastBegin(mem);
    AllocPlain(LAST, c2);
    var c3 := Last(mem, [TARGET_FETCHED], 20, [BACK_WAITS], 1, map[], []);
    steps := Go(LAST, c0, steps, c2, AllocStep, c3);
    AllocPlain(LAST, c3);
    steps := Go(LAST, c0, steps, c3, AllocStep, LastFilled(mem));
    Ends(LAST, c0, steps, LastFilled(mem));
    steps := LastFinish(mem, steps);
    LastOutOfOrder(mem);
  }

  // ----- a jump to its own delay slot --------------------------------------------------------------------------

  /** jalr through the only register, which holds the address of the delay slot. */
  function Hop(): Inst {
    Jump(Jalr, [0], [0], 0)
  }

  function HopProg(): Prog {
    (pc: Word) => if pc == 0 then Hop() else Nop()
  }

  const HOPS := Sys(HopProg(), [0], [0, 0], 3)

  function Hop0(mem: Mem): State {
    State([0], [0], [true, false], [true, false], [true, false], [4, 0], [4], mem, [], 0, [], [], 0, 0, map[], 0, [])
  }

  const HOP_FETCHED := Fetched(0, Hop(), 4, false)

  function NopFetched(pc: Word): Fetched {
    Fetched(pc, Nop(), Wrap(pc + 4), false)
  }

  function NopOp(pc: Word, stage: Stage): Op {
    Op(pc, Nop(), Wrap(pc + 4), false, [], [], -1, 0, stage, 0, [], false, false, false, 0)
  }

  const HOP_WAITS := Op(0, Hop(), 4, false, [0], [Dest(0, 1, 0)], -1, 0, Waiting, 0, [], false, false, true, 0)

  /** After the three fetches. */
  function Hop1(mem: Mem): State {
    Hop0(mem).(fq := [HOP_FETCHED, NopFetched(4), NopFetched(8)], fetchPc := 12)
  }

  /** After the jump's allocation; its link register is physical register 1. */
  function Hop2(mem: Mem, fq: seq<Fetched>, rob: seq<Op>, nextId: nat): State {
    Hop1(mem).(rat := [1], used := [true, true], valid := [true, false], fq := fq, rob := rob, nextId := nextId)
  }

  /** After its execution: the target it computes is the pc fetched behind it, so nothing is amiss. */
  function HopOp(stage: Stage): Op {
    HOP_WAITS.(stage := stage, correctPc := 4)
  }

  function Hop3(mem: Mem, rob: seq<Op>): State {
    Hop2(mem, [], rob, 3).(prf := [4, 8])
  }

  function Hop4(mem: Mem, rob: seq<Op>): State {
    Hop3(mem, rob).(valid := [true, true])
  }

  /** After its retirement. */
  function Hop5(mem: Mem, rob: seq<Op>, retired: seq<Word>): State {
    Hop4(mem, rob).(used := [false, true], usedR := [false, true], valid := [false, true], ratR := [1], arch := [8],
                    targets := map[0 := 4], retired := retired)
  }

  lemma HopInitial(mem: Mem)
    ensures HOPS.Wf() && Initial(HOPS, Hop0(mem))
  {
    assert BitsOf(Hop0(mem).rat, 2) == [true, false];
    forall pc: Word
      ensures WfInst(1, HOPS.prog(pc))
    {
      assert HOPS.prog(pc) == if pc == 0 then Hop() else Nop();
    }
  }

  lemma HopFetch(mem: Mem, fq: seq<Fetched>, pc: Word)
    requires pc < 100
    ensures var c := Hop0(mem).(fq := fq, fetchPc := pc);
            Fetch(HOPS, c, false, 0) ==
            c.(fq := fq + [Fetched(pc, if pc == 0 then Hop() else Nop(), pc + 4, false)], fetchPc := pc + 4)
  {
    assert HOPS.prog(pc) == if pc == 0 then Hop() else Nop();
  }

  /** The alias table and vectors after the one register has been renamed. */
  lemma FirstRenamed()
    ensures ApplyDests([0], [Dest(0, 1, 0)]) == [1]
    ensures MarkNew([true, false], [Dest(0, 1, 0)], true) == [true, true]
    ensures MarkNew([true, false], [Dest(0, 1, 0)], false) == [true, false]
  {
  }

  lemma HopAlloc(mem: Mem)
    requires HOPS.Wf() && Shape(HOPS, Hop1(mem))
    ensures CanAllocate(HOPS, Hop1(mem))
    ensures Allocate(HOPS, Hop1(mem)) == Hop2(mem, [NopFetched(4), NopFetched(8)], [HOP_WAITS], 1)
  {
    hide WfProg;
    assert FirstFree([0, 0], [true, false], 0, 0) == 1;
    var rat: seq<nat> := [0];
    assert ReadSrcs(rat, [0]) == [0];
    FirstRenamed();
  }

  lemma HopExec(mem: Mem, u: Op, v: Op)
    requires HOPS.Wf() && Shape(HOPS, Hop2(mem, [], [HOP_WAITS, u, v], 3))
    ensures Enabled(HOPS, Hop2(mem, [], [HOP_WAITS, u, v], 3), ExecStep(0))
    ensures Execute(HOPS, Hop2(mem, [], [HOP_WAITS, u, v], 3), 0) == Hop3(mem, [HopOp(Issued), u, v])
  {
    hide WfProg;
    var prf: seq<Word> := [4, 0];
    assert ReadSrcs(prf, [0]) == [4];
    assert Results(0, Hop(), [4], mem) == [8];
  }

  lemma HopComplete(mem: Mem, u: Op, v: Op)
    requires HOPS.Wf() && Shape(HOPS, Hop3(mem, [HopOp(Issued), u, v]))
    ensures CompleteOp(HOPS, Hop3(mem, [HopOp(Issued), u, v]), 0) == Hop4(mem, [HopOp(Complete), u, v])
  {
    hide WfProg;
  }

  lemma HopRetire(mem: Mem, u: Op, v: Op)
    requires HOPS.Wf() && Shape(HOPS, Hop4(mem, [HopOp(Complete), u, v])) && u.stage == Complete && !u.loadExc
    ensures Retire(HOPS, Hop4(mem, [HopOp(Complete), u, v])) == Hop5(mem, [u, v], [0])
  {
    hide WfProg;
  }

  lemma HopOutOfOrder(mem: Mem)
    requires HOPS.Wf()
    ensures !InOrder(HOPS, Hop5(mem, [], [0, 4, 8]), Start(Hop0(mem)))
  {
    var s0 := Start(Hop0(mem));
    var s1 := RefRun(HOPS.prog, s0, 1);
    assert s1 == RefStep(HOPS.prog, RefRun(HOPS.prog, s0, 0));
    assert HOPS.prog(0) == Hop() && s1.pc == 4 && s1.pend == Some(4);
    assert HOPS.prog(4) == Nop();
    assert RefRun(HOPS.prog, s0, 2) == RefStep(HOPS.prog, s1);
    assert RefRun(HOPS.prog, s0, 2).pc == 4;
  }

  lemma HopBegin(mem: Mem) returns (steps: seq<Step>)
    ensures HOPS.Wf() && Initial(HOPS, Hop0(mem))
    ensures At(HOPS, Hop0(mem), steps, Hop1(mem)) && Shape(HOPS, Hop1(mem))
  {
    HopInitial(mem);
    hide At, Initial, Runs, Shape, WfProg, Fetch;
    var c0 := Hop0(mem);
    Begin(HOPS, c0);
    HopFetch(mem, [], 0);
    var c1 := c0.(fq := [HOP_FETCHED], fetchPc := 4);
    steps := Go(HOPS, c0, [], c0, FetchStep(false, 0), c1);
    HopFetch(mem, [HOP_FETCHED], 4);
    var c2 := c0.(fq := [HOP_FETCHED, NopFetched(4)], fetchPc := 8);
    steps := Go(HOPS, c0, steps, c1, FetchStep(false, 0), c2);
    HopFetch(mem, [HOP_FETCHED, NopFetched(4)], 8);
    steps := Go(HOPS, c0, steps, c2, FetchStep(false, 0), Hop1(mem));
  }

  lemma HopFill(mem: Mem, steps: seq<Step>) returns (steps': seq<Step>)
    requires HOPS.Wf() && At(HOPS, Hop0(mem), steps, Hop1(mem)) && Shape(HOPS, Hop1(mem))
    ensures var d := Hop2(mem, [], [HOP_WAITS, NopOp(4, Waiting), NopOp(8, Waiting)], 3);
            At(HOPS, Hop0(mem), steps', d) && Shape(HOPS, d)
  {
    hide At, Initial, Runs, Shape, WfProg, CanAllocate, Allocate;
    var c0 := Hop0(mem);
    HopAlloc(mem);
    var c1 := Hop2(mem, [NopFetched(4), NopFetched(8)], [HOP_WAITS], 1);
    steps' := Go(HOPS, c0, steps, Hop1(mem), AllocStep, c1);
    AllocPlain(HOPS, c1);
    var c2 := Hop2(mem, [NopFetched(8)], [HOP_WAITS, NopOp(4, Waiting)], 2);
    steps' := Go(HOPS, c0, steps', c1, AllocStep, c2);
    AllocPlain(HOPS, c2);
    steps' := Go(HOPS, c0, steps', c2, AllocStep, Hop2(mem, [], [HOP_WAITS, NopOp(4, Waiting), NopOp(8, Waiting)], 3));
  }

  lemma HopRun(mem: Mem, steps: seq<Step>) returns (steps': seq<Step>)
    requires HOPS.Wf()
    requires var c := Hop2(mem, [], [HOP_WAITS, NopOp(4, Waiting), NopOp(8, Waiting)], 3);
             At(HOPS, Hop0(mem), steps, c) && Shape(HOPS, c)
    ensures var d := Hop4(mem, [HopOp(Complete), NopOp(4, Complete), NopOp(8, Complete)]);
            At(HOPS, Hop0(mem), steps', d) && Shape(HOPS, d)
  {
    hide At, Initial, Runs, Shape, WfProg, Ready, Execute, CompleteOp;
    var c0, u, v := Hop0(mem), NopOp(4, Waiting), NopOp(8, Waiting);
    var c1 := Hop2(mem, [], [HOP_WAITS, u, v], 3);
    HopExec(mem, u, v);
    var c2 := Hop3(mem, [HopOp(Issued), u, v]);
    steps' := Go(HOPS, c0, steps, c1, ExecStep(0), c2);
    HopComplete(mem, u, v);
    var c3 := Hop4(mem, [HopOp(Complete), u, v]);
    steps' := Go(HOPS, c0, steps', c2, CompleteStep(0), c3);
    ExecPlain(HOPS, c3, 1);
    var c4 := Hop4(mem, [HopOp(Complete), NopOp(4, Issued), v]);
    steps' := Go(HOPS, c0, steps', c3, ExecStep(1), c4);
    CompletePlain(HOPS, c4, 1);
    var c5 := Hop4(mem, [HopOp(Complete), NopOp(4, Complete), v]);
    steps' := Go(HOPS, c0, steps', c4, CompleteStep(1), c5);
    ExecPlain(HOPS, c5, 2);
    var c6 := Hop4(mem, [HopOp(Complete), NopOp(4, Complete), NopOp(8, Issued)]);
    steps' := Go(HOPS, c0, steps', c5, ExecStep(2), c6);
    CompletePlain(HOPS, c6, 2);
    var c7 := Hop4(mem, [HopOp(Complete), NopOp(4, Complete), NopOp(8, Complete)]);
    steps' := Go(HOPS, c0, steps', c6, CompleteStep(2), c7);
  }

  /** Fifteen steps: behind the jump and its slot the instruction after the slot retires, where program order has the
      slot again. */
  lemma JalrDiverges(mem: Mem) returns (steps: seq<Step>)
    ensures HOPS.Wf() && Initial(HOPS, Hop0(mem)) && Runs(HOPS, Hop0(mem), steps, Hop5(mem, [], [0, 4, 8]))
    ensures !InOrder(HOPS, Hop5(mem, [], [0, 4, 8]), Start(Hop0(mem)))
  {
    hide At, Initial, Runs, Shape, WfProg, Retire, InOrder;
    var c0, u, v := Hop0(mem), NopOp(4, Complete), NopOp(8, Complete);
    steps := HopBegin(mem);
    steps := HopFill(mem, steps);
    steps := HopRun(mem, steps);
    HopRetire(mem, u, v);
    var c1, c2 := Hop5(mem, [u, v], [0]), Hop5(mem, [v], [0, 4]);
    steps := Go(HOPS, c0, steps, Hop4(mem, [HopOp(Complete), u, v]), RetireStep, c1);
    RetirePlain(HOPS, c1);
    steps := Go(HOPS, c0, steps, c1, RetireStep, c2);
    RetirePlain(HOPS, c2);
    steps := Go(HOPS, c0, steps, c2, RetireStep, Hop5(mem, [], [0, 4, 8]));
    Ends(HOPS, c0, steps, Hop5(mem, [], [0, 4, 8]));
    HopOutOfOrder(mem);
  }

  // ----- a store across a block boundary --------------------------------------------------------------------------

  /** Bytes 6 to 9 take the word 6, whose last byte the load at 9 should see. */
  function Cross(): Inst {
    Store(Sw, [0, 0], 0)
  }

  function Behind(): Inst {
    Load(Lbu, [0], [0], 3)
  }

  function CrossProg(): Prog {
    (pc: Word) => if pc == 0 then Cross() else Behind()
  }

  function Blank(): Mem {
    (a: Word) => 0
  }

  const CROSS := Sys(CrossProg(), [0], [0, 0], 2)

  function Cross0(): State {
    State([0], [0], [true, false], [true, false], [true, false], [6, 0], [6], Blank(), [], 0, [-1], [], 0, 0, map[], 0,
          [])
  }

  const CROSS_FETCHED := Fetched(0, Cross(), 4, false)
  const BEHIND_FETCHED := Fetched(4, Behind(), 8, false)

  function Cross1(): State {
    Cross0().(fq := [CROSS_FETCHED, BEHIND_FETCHED], fetchPc := 8)
  }

  const CROSS_WAITS := Op(0, Cross(), 4, false, [0, 0], [], -1, 0, Waiting, 0, [], false, false, false, 0)
  const BEHIND_WAITS := Op(4, Behind(), 8, false, [0], [Dest(0, 1, 0)], 0, 0, Waiting, 0, [], false, false, false, 0)

  function CrossOp(stage: Stage): Op {
    CROSS_WAITS.(stage := stage, ea := 6, vals := [6, 6])
  }

  function BehindOp(stage: Stage): Op {
    BEHIND_WAITS.(stage := stage, ea := 9, vals := [6])
  }

  function Cross2(rob: seq<Op>): State {
    Cross1().(rat := [1], used := [true, true], valid := [true, false], fq := [], rob := rob, nextId := 2, ldTbl := [1])
  }

  /** After the load has read its byte. */
  function Cross3(rob: seq<Op>): State {
    Cross2(rob).(valid := [true, true])
  }

  function Written(): Mem {
    WriteBytes(Blank(), 6, [0, 0, 0, 6])
  }

  function Cross4(): State {
    Cross3([BehindOp(Complete)]).(mem := Written(), retired := [0])
  }

  function Cross5(): State {
    Cross4().(used := [false, true], usedR := [false, true], valid := [false, true], ratR := [1], arch := [0],
              rob := [], ldTbl := [-1], retired := [0, 4])
  }

  lemma CrossInitial()
    ensures CROSS.Wf() && Initial(CROSS, Cross0())
  {
    assert BitsOf(Cross0().rat, 2) == [true, false];
    forall pc: Word
      ensures WfInst(1, CROSS.prog(pc))
    {
      assert CROSS.prog(pc) == if pc == 0 then Cross() else Behind();
    }
  }

  lemma CrossAlloc()
    requires CROSS.Wf()
    requires var c := Cross1().(fq := [BEHIND_FETCHED], rob := [CROSS_WAITS], nextId := 1); Shape(CROSS, c)
    ensures var c := Cross1().(fq := [BEHIND_FETCHED], rob := [CROSS_WAITS], nextId := 1);
            CanAllocate(CROSS, c) && Allocate(CROSS, c) == Cross2([CROSS_WAITS, BEHIND_WAITS])
  {
    hide WfProg;
    assert FirstFree([0, 0], [true, false], 0, 0) == 1;
    var rat: seq<nat> := [0];
    assert ReadSrcs(rat, [0]) == [0];
    FirstRenamed();
  }

  lemma BehindExec()
    requires CROSS.Wf() && Shape(CROSS, Cross2([CROSS_WAITS, BEHIND_WAITS]))
    ensures Enabled(CROSS, Cross2([CROSS_WAITS, BEHIND_WAITS]), ExecStep(1))
    ensures Execute(CROSS, Cross2([CROSS_WAITS, BEHIND_WAITS]), 1) == Cross2([CROSS_WAITS, BehindOp(Issued)])
  {
    hide WfProg;
    var prf: seq<Word> := [6, 0];
    assert ReadSrcs(prf, [0]) == [6];
  }

  lemma BehindComplete()
    requires CROSS.Wf() && Shape(CROSS, Cross2([CROSS_WAITS, BehindOp(Issued)]))
    ensures CompleteOp(CROSS, Cross2([CROSS_WAITS, BehindOp(Issued)]), 1) == Cross3([CROSS_WAITS, BehindOp(Complete)])
  {
    hide WfProg;
    assert LoadValues(Lbu, Blank(), 9, 6) == [0];
  }

  lemma CrossExec(v: Op)
    requires CROSS.Wf() && Shape(CROSS, Cross3([CROSS_WAITS, v]))
    ensures Enabled(CROSS, Cross3([CROSS_WAITS, v]), ExecStep(0))
    ensures Execute(CROSS, Cross3([CROSS_WAITS, v]), 0) == Cross3([CrossOp(Issued), v])
  {
    hide WfProg;
    var prf: seq<Word> := [6, 0];
    assert ReadSrcs(prf, [0, 0]) == [6, 6];
  }

  lemma CrossRetire()
    requires CROSS.Wf() && Shape(CROSS, Cross3([CrossOp(Complete), BehindOp(Complete)]))
    ensures Retire(CROSS, Cross3([CrossOp(Complete), BehindOp(Complete)])) == Cross4()
  {
    hide WfProg, WriteBytes;
    assert StoreBytes(Sw, [6, 6]) == [0, 0, 0, 6];
    var c := Cross3([CrossOp(Complete), BehindOp(Complete)]);
    assert !Conflicts(c, c.rob[0], c.ldTbl[0]);
  }

  lemma BehindRetire()
    requires CROSS.Wf() && Shape(CROSS, Cross4())
    ensures Retire(CROSS, Cross4()) == Cross5()
  {
    hide WfProg, WriteBytes;
  }

  lemma CrossMemory()
    requires WfProg(1, CROSS.prog)
    ensures var s0 := Start(Cross0()); var s1 := RefRun(CROSS.prog, s0, 1);
            s1.regs == [6] && s1.pc == 4 && s1.pend.None? && s1.mem == Written()
  {
    hide WriteBytes, WfProg;
    var s0 := Start(Cross0());
    assert RefRun(CROSS.prog, s0, 1) == RefStep(CROSS.prog, RefRun(CROSS.prog, s0, 0));
    assert CROSS.prog(0) == Cross();
    assert Operands(Cross(), s0.regs) == [6, 6];
    assert StoreBytes(Sw, [6, 6]) == [0, 0, 0, 6];
  }

  lemma BehindReads()
    ensures LoadValues(Lbu, Written(), 9, 6) == [6]
  {
    assert Wrap(9 - 6) == 3;
  }

  lemma BehindStep(s: Arch)
    requires WfProg(1, CROSS.prog) && s.regs == [6] && s.pc == 4 && s.mem == Written()
    ensures RefStep(CROSS.prog, s).regs == [6]
  {
    BehindReads();
    hide WriteBytes, WfProg, LoadValues;
    assert CROSS.prog(4) == Behind();
    assert Operands(Behind(), s.regs) == [6];
  }

  lemma CrossOutOfOrder()
    requires CROSS.Wf()
    ensures !InOrder(CROSS, Cross5(), Start(Cross0()))
  {
    CrossMemory();
    hide WriteBytes, WfProg, RefStep;
    var s0 := Start(Cross0());
    var s1 := RefRun(CROSS.prog, s0, 1);
    assert RefRun(CROSS.prog, s0, 2) == RefStep(CROSS.prog, s1);
    BehindStep(s1);
  }

  lemma CrossBegin() returns (steps: seq<Step>)
    ensures var d := Cross1().(fq := [BEHIND_FETCHED], rob := [CROSS_WAITS], nextId := 1);
            CROSS.Wf() && Initial(CROSS, Cross0()) && At(CROSS, Cross0(), steps, d) && Shape(CROSS, d)
  {
    CrossInitial();
    hide At, Initial, Runs, Shape, WfProg, Fetch, CanAllocate, Allocate;
    var c0 := Cross0();
    assert CROSS.prog(0) == Cross() && CROSS.prog(4) == Behind();
    Begin(CROSS, c0);
    FetchPlain(CROSS, c0);
    var c1 := c0.(fq := [CROSS_FETCHED], fetchPc := 4);
    steps := Go(CROSS, c0, [], c0, FetchStep(false, 0), c1);
    FetchPlain(CROSS, c1);
    steps := Go(CROSS, c0, steps, c1, FetchStep(false, 0), Cross1());
    AllocPlain(CROSS, Cross1());
    var rat: seq<nat> := [0];
    assert ReadSrcs(rat, [0, 0]) == [0, 0];
    var c2 := Cross1().(fq := [BEHIND_FETCHED], rob := [CROSS_WAITS], nextId := 1);
    steps := Go(CROSS, c0, steps, Cross1(), AllocStep, c2);
  }

  /** Ten steps: the load reads its byte before the store retires, is not flagged, and retires with the old value. */
  lemma CrossingStoreDiverges() returns (steps: seq<Step>)
    ensures CROSS.Wf() && Initial(CROSS, Cross0()) && Runs(CROSS, Cross0(), steps, Cross5())
    ensures !InOrder(CROSS, Cross5(), Start(Cross0()))
  {
    hide At, Initial, Runs, Shape, WfProg, CanAllocate, Ready, Allocate, Execute, CompleteOp, Retire, InOrder;
    var c0 := Cross0();
    steps := CrossBegin();
    CrossAlloc();
    var c1 := Cross2([CROSS_WAITS, BEHIND_WAITS]);
    steps := Go(CROSS, c0, steps, Cross1().(fq := [BEHIND_FETCHED], rob := [CROSS_WAITS], nextId := 1), AllocStep, c1);
    BehindExec();
    var c2 := Cross2([CROSS_WAITS, BehindOp(Issued)]);
    steps := Go(CROSS, c0, steps, c1, ExecStep(1), c2);
    BehindComplete();
    var c3 := Cross3([CROSS_WAITS, BehindOp(Complete)]);
    steps := Go(CROSS, c0, steps, c2, CompleteStep(1), c3);
    CrossExec(BehindOp(Complete));
    var c4 := Cross3([CrossOp(Issued), BehindOp(Complete)]);
    steps := Go(CROSS, c0, steps, c3, ExecStep(0), c4);
    CompletePlain(CROSS, c4, 0);
    var c5 := Cross3([CrossOp(Complete), BehindOp(Complete)]);
    steps := Go(CROSS, c0, steps, c4, CompleteStep(0), c5);
    CrossRetire();
    steps := Go(CROSS, c0, steps, c5, RetireStep, Cross4());
    BehindRetire();
    steps := Go(CROSS, c0, steps, Cross4(), RetireStep, Cross5());
    Ends(CROSS, c0, steps, Cross5());
    CrossOutOfOrder();
  }

  // ----- a branch to its own delay slot ---------------------------------------------------------------------------

  /** A likely branch always taken, to the next word, and an op that sets the only register to 1. */
  function Spin(): Inst {
    Branch([], (vals: seq<Word>) => true, 0, true, LikelyOpcode)
  }

  function SetOne(): Inst {
    Alu([0], [], (vals: seq<Word>) => (1, 0))
  }

  function SpinProg(): Prog {
    (pc: Word) => if pc == 0 then Spin() else SetOne()
  }

  const SPINS := Sys(SpinProg(), [0], [0, 0], 2)

  function Spin0(mem: Mem): State {
    State([0], [0], [true, false], [true, false], [true, false], [0, 0], [0], mem, [], 0, [], [], 0, 0, map[], 0, [])
  }

  const SPIN_FETCHED := Fetched(0, Spin(), 4, true)
  const SET_FETCHED := Fetched(4, SetOne(), 8, false)
  const SPIN_WAITS := Op(0, Spin(), 4, true, [], [], -1, 0, Waiting, 0, [], false, false, false, 0)

  function SpinOp(stage: Stage): Op {
    SPIN_WAITS.(stage := stage, hasDelay := true, correctPc := 4)
  }

  function SetOp(stage: Stage): Op {
    Op(4, SetOne(), 8, false, [], [Dest(0, 1, 0)], -1, 0, stage, 0, [], false, false, false, 0)
  }

  function Spin1(mem: Mem, fq: seq<Fetched>, rob: seq<Op>, nextId: nat): State {
    Spin0(mem).(fq := fq, fetchPc := 4, rob := rob, nextId := nextId)
  }

  function Spin2(mem: Mem, rob: seq<Op>): State {
    Spin1(mem, [], rob, 2).(rat := [1], used := [true, true], valid := [true, false])
  }

  function Spin3(mem: Mem, rob: seq<Op>): State {
    Spin2(mem, rob).(prf := [0, 1])
  }

  function Spin4(mem: Mem, rob: seq<Op>): State {
    Spin3(mem, rob).(valid := [true, true])
  }

  /** The branch has retired, and its slot is about to. */
  function Spin5(mem: Mem): State {
    Spin4(mem, [SetOp(Complete)]).(targets := map[0 := 4], retired := [0])
  }

  lemma SpinInitial(mem: Mem)
    ensures SPINS.Wf() && Initial(SPINS, Spin0(mem))
  {
    assert BitsOf(Spin0(mem).rat, 2) == [true, false];
    forall pc: Word
      ensures WfInst(1, SPINS.prog(pc))
    {
      assert SPINS.prog(pc) == if pc == 0 then Spin() else SetOne();
    }
  }

  lemma SpinFetch(mem: Mem)
    ensures var c := Spin0(mem).(fq := [SPIN_FETCHED], fetchPc := 4, slotPc := 4);
            Fetch(SPINS, Spin0(mem), false, 0) == c
            && Fetch(SPINS, c, false, 0) == Spin1(mem, [SPIN_FETCHED, SET_FETCHED], [], 0)
  {
  }

  lemma SetAlloc(mem: Mem)
    requires SPINS.Wf() && Shape(SPINS, Spin1(mem, [SET_FETCHED], [SPIN_WAITS], 1))
    ensures CanAllocate(SPINS, Spin1(mem, [SET_FETCHED], [SPIN_WAITS], 1))
    ensures Allocate(SPINS, Spin1(mem, [SET_FETCHED], [SPIN_WAITS], 1)) == Spin2(mem, [SPIN_WAITS, SetOp(Waiting)])
  {
    hide WfProg;
    assert FirstFree([0, 0], [true, false], 0, 0) == 1;
    FirstRenamed();
  }

  lemma SpinExec(mem: Mem, op: Op)
    requires SPINS.Wf() && Shape(SPINS, Spin2(mem, [SPIN_WAITS, op]))
    ensures Enabled(SPINS, Spin2(mem, [SPIN_WAITS, op]), ExecStep(0))
    ensures Execute(SPINS, Spin2(mem, [SPIN_WAITS, op]), 0) == Spin2(mem, [SpinOp(Issued), op])
  {
    hide WfProg;
  }

  lemma SetExec(mem: Mem, op: Op)
    requires SPINS.Wf() && Shape(SPINS, Spin2(mem, [op, SetOp(Waiting)]))
    ensures Enabled(SPINS, Spin2(mem, [op, SetOp(Waiting)]), ExecStep(1))
    ensures Execute(SPINS, Spin2(mem, [op, SetOp(Waiting)]), 1) == Spin3(mem, [op, SetOp(Issued)])
  {
    hide WfProg;
    assert Results(4, SetOne(), [], mem) == [1];
  }

  lemma SetComplete(mem: Mem, op: Op)
    requires SPINS.Wf() && Shape(SPINS, Spin3(mem, [op, SetOp(Issued)]))
    ensures CompleteOp(SPINS, Spin3(mem, [op, SetOp(Issued)]), 1) == Spin4(mem, [op, SetOp(Complete)])
  {
    hide WfProg;
  }

  lemma SpinRetire(mem: Mem)
    requires SPINS.Wf() && Shape(SPINS, Spin4(mem, [SpinOp(Complete), SetOp(Complete)]))
    ensures Retire(SPINS, Spin4(mem, [SpinOp(Complete), SetOp(Complete)])) == Spin5(mem)
  {
    hide WfProg;
  }

  lemma SpinRun(mem: Mem) returns (steps: seq<Step>)
    ensures At(SPINS, Spin0(mem), steps, Spin5(mem)) && SPINS.Wf() && Shape(SPINS, Spin5(mem))
  {
    SpinInitial(mem);
    hide At, Initial, Runs, Shape, WfProg, Fetch, Ready, CanAllocate, Allocate, Execute, CompleteOp, Retire;
    var c0, u, v := Spin0(mem), SpinOp(Complete), SetOp(Waiting);
    Begin(SPINS, c0);
    SpinFetch(mem);
    var c1 := c0.(fq := [SPIN_FETCHED], fetchPc := 4, slotPc := 4);
    steps := Go(SPINS, c0, [], c0, FetchStep(false, 0), c1);
    steps := Go(SPINS, c0, steps, c1, FetchStep(false, 0), Spin1(mem, [SPIN_FETCHED, SET_FETCHED], [], 0));
    AllocPlain(SPINS, Spin1(mem, [SPIN_FETCHED, SET_FETCHED], [], 0));
    var c3 := Spin1(mem, [SET_FETCHED], [SPIN_WAITS], 1);
    steps := Go(SPINS, c0, steps, Spin1(mem, [SPIN_FETCHED, SET_FETCHED], [], 0), AllocStep, c3);
    SetAlloc(mem);
    steps := Go(SPINS, c0, steps, c3, AllocStep, Spin2(mem, [SPIN_WAITS, v]));
    SpinExec(mem, v);
    steps := Go(SPINS, c0, steps, Spin2(mem, [SPIN_WAITS, v]), ExecStep(0), Spin2(mem, [SpinOp(Issued), v]));
    CompletePlain(SPINS, Spin2(mem, [SpinOp(Issued), v]), 0);
    steps := Go(SPINS, c0, steps, Spin2(mem, [SpinOp(Issued), v]), CompleteStep(0), Spin2(mem, [u, v]));
    SetExec(mem, u);
    steps := Go(SPINS, c0, steps, Spin2(mem, [u, v]), ExecStep(1), Spin3(mem, [u, SetOp(Issued)]));
    SetComplete(mem, u);
    steps := Go(SPINS, c0, steps, Spin3(mem, [u, SetOp(Issued)]), CompleteStep(1), Spin4(mem, [u, SetOp(Complete)]));
    SpinRetire(mem);
    steps := Go(SPINS, c0, steps, Spin4(mem, [u, SetOp(Complete)]), RetireStep, Spin5(mem));
  }

  lemma SpinOrder(mem: Mem)
    requires SPINS.Wf()
    ensures var s0 := Start(Spin0(mem));
            && SupportedUpTo(SPINS, s0, 2)
            && !ReentersSlot(SPINS.prog, s0, {0}, 0) && ReentersSlot(SPINS.prog, s0, {0}, 1)
  {
    var s0 := Start(Spin0(mem));
    var s1 := RefRun(SPINS.prog, s0, 1);
    NextInOrder(SPINS.prog, s0, 0);
    assert SPINS.prog(0) == Spin() && s1.pc == 4 && s1.pend == Some(4);
    NextInOrder(SPINS.prog, s0, 1);
    assert SPINS.prog(4) == SetOne() && RefRun(SPINS.prog, s0, 2).regs == [1];
  }

  lemma SpinEnds(mem: Mem)
    requires SPINS.Wf() && Shape(SPINS, Spin5(mem))
    ensures Spin0(mem).retired == [] && |Spin5(mem).retired| == 1 && StepCount(Spin5(mem), RetireStep) == 1
    ensures Enabled(SPINS, Spin5(mem), RetireStep) && |Next(SPINS, Spin5(mem), RetireStep).retired| == 2
    ensures |Start(Spin0(mem)).regs| == |SPINS.bankA| == 1
  {
    hide WfProg, Shape, Next;
    RetiredGrows(SPINS, Spin5(mem), RetireStep);
  }

  lemma SpinOutcome(mem: Mem, steps: seq<Step>) returns (k: Checker)
    requires SPINS.Wf() && Initial(SPINS, Spin0(mem)) && Runs(SPINS, Spin0(mem), steps, Spin5(mem))
    requires Shape(SPINS, Spin5(mem)) && |SPINS.bankA| == 1 && |Start(Spin0(mem)).regs| == 1
    ensures CheckedRun(SPINS, {0}, Spin0(mem), Checker(Start(Spin0(mem)), false), steps, Spin5(mem), k) && !k.failed
    ensures |k.s.regs| == 1 && Check(SPINS, {0}, Spin5(mem), RetireStep, k).failed
  {
    SpinOrder(mem);
    SpinEnds(mem);
    hide Initial, Shape, WfProg, CheckedRun, Check, ReentersSlot, Supported, Next, Runs, Spin0, Spin5, Start, Enabled,
      StepCount, RefRun, Ahead;
    var c, d := Spin0(mem), Spin5(mem);
    k := RunIsChecked(SPINS, {0}, c, Checker(Start(c), false), steps, d);
    CheckedIsRun(SPINS, {0}, c, Checker(Start(c), false), steps, d, k);
    CrossCheckPasses(SPINS, {0}, c, steps, d, k);
    CrossCheckExact(SPINS, {0}, c, steps, d, k, RetireStep);
  }

  lemma SpinInOrder(mem: Mem, steps: seq<Step>)
    requires SPINS.Wf() && Initial(SPINS, Spin0(mem)) && Runs(SPINS, Spin0(mem), steps, Spin5(mem))
    requires Shape(SPINS, Spin5(mem)) && Enabled(SPINS, Spin5(mem), RetireStep)
    requires |Start(Spin0(mem)).regs| == |SPINS.bankA|
    ensures InOrder(SPINS, Next(SPINS, Spin5(mem), RetireStep), Start(Spin0(mem)))
  {
    SpinOrder(mem);
    SpinEnds(mem);
    hide Initial, Shape, WfProg, ReentersSlot, Supported, Next, Runs, Spin0, Spin5, Start, Enabled, InOrder, RefRun;
    RunAppend(SPINS, Spin0(mem), steps, Spin5(mem), RetireStep);
    OutOfOrderRefinesInOrder(SPINS, Spin0(mem), steps + [RetireStep], Next(SPINS, Spin5(mem), RetireStep));
  }

  /** Every instruction is supported and the core is right, yet as the slot comes to retire the interpreter, back at the
      same pc with the slot executed, is found to differ. */
  lemma SelfSlotReported(mem: Mem) returns (steps: seq<Step>, k: Checker)
    ensures SPINS.Wf() && Initial(SPINS, Spin0(mem)) && |SPINS.bankA| == 1 && |Start(Spin0(mem)).regs| == 1
    ensures CheckedRun(SPINS, {0}, Spin0(mem), Checker(Start(Spin0(mem)), false), steps, Spin5(mem), k) && !k.failed
    ensures |k.s.regs| == 1 && Check(SPINS, {0}, Spin5(mem), RetireStep, k).failed
    ensures Shape(SPINS, Spin5(mem)) && Enabled(SPINS, Spin5(mem), RetireStep)
    ensures InOrder(SPINS, Next(SPINS, Spin5(mem), RetireStep), Start(Spin0(mem)))
  {
    steps := SpinRun(mem);
    SpinEnds(mem);
    hide At, Initial, Shape, WfProg, CheckedRun, Check, InOrder, Next, Runs, Spin0, Spin5, Start, Enabled, StepCount;
    Ends(SPINS, Spin0(mem), steps, Spin5(mem));
    k := SpinOutcome(mem, steps);
    SpinInOrder(mem, steps);
  }
}
