/** The simulator's own machine state: arrays and queues updated in place by each pipeline stage. Every method is
    proved to take exactly the corresponding step of Core. */
module MachineState {
  import opened Basics
  import opened Isa
  import opened Core
  import opened Renaming
  import opened DataSteps
  import opened Reachability
  import opened FreeLists
  import Ring

  const NUM_GPR := 34
  const NUM_CPR0 := 32
  const NUM_CPR1 := 32
  const NUM_FCR1 := 5

  /** Four register files side by side, with the given numbers of physical registers. */
  function MipsSys(prog: Prog, gpr: nat, cpr0: nat, cpr1: nat, fcr1: nat, robCap: nat): Sys {
    Sys(prog,
        seq(NUM_GPR, _ => 0) + seq(NUM_CPR0, _ => 1) + seq(NUM_CPR1, _ => 2) + seq(NUM_FCR1, _ => 3),
        seq(gpr, _ => 0) + seq(cpr0, _ => 1) + seq(cpr1, _ => 2) + seq(fcr1, _ => 3),
        robCap)
  }

  /** At reset register i of a file maps to physical register i of that file. */
  function ResetMap(a: Reg, gpr: nat, cpr0: nat, cpr1: nat): nat {
    if a < NUM_GPR then a
    else if a < NUM_GPR + NUM_CPR0 then gpr + (a - NUM_GPR)
    else if a < NUM_GPR + NUM_CPR0 + NUM_CPR1 then gpr + cpr0 + (a - NUM_GPR - NUM_CPR0)
    else gpr + cpr0 + cpr1 + (a - NUM_GPR - NUM_CPR0 - NUM_CPR1)
  }

  const NUM_ARCH := NUM_GPR + NUM_CPR0 + NUM_CPR1 + NUM_FCR1

  ghost predicate EnoughRegs(gpr: nat, cpr0: nat, cpr1: nat, fcr1: nat) {
    gpr >= NUM_GPR && cpr0 >= NUM_CPR0 && cpr1 >= NUM_CPR1 && fcr1 >= NUM_FCR1
  }

  lemma ResetMapOk(sys: Sys, prog: Prog, gpr: nat, cpr0: nat, cpr1: nat, fcr1: nat, robCap: nat, a: Reg, b: Reg)
    requires EnoughRegs(gpr, cpr0, cpr1, fcr1) && sys == MipsSys(prog, gpr, cpr0, cpr1, fcr1, robCap)
    requires a < NUM_ARCH && b < NUM_ARCH
    ensures ResetMap(a, gpr, cpr0, cpr1) < |sys.bankP| && |sys.bankA| == NUM_ARCH
    ensures sys.bankP[ResetMap(a, gpr, cpr0, cpr1)] == sys.bankA[a]
    ensures a != b ==> ResetMap(a, gpr, cpr0, cpr1) != ResetMap(b, gpr, cpr0, cpr1)
  {
  }

  lemma MipsSysSizes(prog: Prog, gpr: nat, cpr0: nat, cpr1: nat, fcr1: nat, robCap: nat)
    ensures var sys := MipsSys(prog, gpr, cpr0, cpr1, fcr1, robCap);
            sys.prog == prog && |sys.bankA| == NUM_ARCH && |sys.bankP| == gpr + cpr0 + cpr1 + fcr1
  {
  }

  function ResetRat(gpr: nat, cpr0: nat, cpr1: nat): (r: seq<nat>)
    ensures |r| == NUM_ARCH
  {
    seq(NUM_ARCH, a requires 0 <= a < NUM_ARCH => ResetMap(a, gpr, cpr0, cpr1))
  }

  lemma ResetRatOk(sys: Sys, prog: Prog, gpr: nat, cpr0: nat, cpr1: nat, fcr1: nat, robCap: nat)
    requires EnoughRegs(gpr, cpr0, cpr1, fcr1) && sys == MipsSys(prog, gpr, cpr0, cpr1, fcr1, robCap)
    ensures var rat := ResetRat(gpr, cpr0, cpr1);
            Distinct(rat) && Banked(sys.bankA, sys.bankP, rat) && forall a :: 0 <= a < |rat| ==> rat[a] < |sys.bankP|
  {
    var rat := ResetRat(gpr, cpr0, cpr1);
    forall a, b | 0 <= a < |rat| && 0 <= b < |rat|
      ensures rat[a] < |sys.bankP| && sys.bankP[rat[a]] == sys.bankA[a] && (a != b ==> rat[a] != rat[b])
    {
      ResetMapOk(sys, prog, gpr, cpr0, cpr1, fcr1, robCap, a, b);
    }
  }

  ghost function Interval(lo: nat, hi: nat): (r: set<nat>)
    requires lo <= hi
    ensures |r| == hi - lo && forall p :: p in r <==> lo <= p < hi
    decreases hi - lo
  {
    if lo == hi then {} else Interval(lo + 1, hi) + {lo}
  }

  lemma BankSize(bank: seq<nat>, b: nat, lo: nat, hi: nat)
    requires lo <= hi <= |bank| && forall p :: 0 <= p < |bank| ==> (bank[p] == b <==> lo <= p < hi)
    ensures |InBank(bank, b)| == hi - lo
  {
    assert InBank(bank, b) == Interval(lo, hi);
  }

  /** The register file of each architectural register. */
  function FileOf(a: Reg): nat {
    if a < NUM_GPR then 0
    else if a < NUM_GPR + NUM_CPR0 then 1
    else if a < NUM_GPR + NUM_CPR0 + NUM_CPR1 then 2
    else 3
  }

  lemma MipsFileOf(prog: Prog, gpr: nat, cpr0: nat, cpr1: nat, fcr1: nat, robCap: nat)
    ensures var bankA := MipsSys(prog, gpr, cpr0, cpr1, fcr1, robCap).bankA;
            |bankA| == NUM_ARCH && forall a :: 0 <= a < |bankA| ==> bankA[a] == FileOf(a)
  {
  }

  lemma MipsFiles(prog: Prog, gpr: nat, cpr0: nat, cpr1: nat, fcr1: nat, robCap: nat)
    ensures var bankA := MipsSys(prog, gpr, cpr0, cpr1, fcr1, robCap).bankA;
            |InBank(bankA, 0)| == NUM_GPR && |InBank(bankA, 2)| == NUM_CPR1
  {
    MipsFileOf(prog, gpr, cpr0, cpr1, fcr1, robCap);
    hide MipsSys;
    var bankA := MipsSys(prog, gpr, cpr0, cpr1, fcr1, robCap).bankA;
    BankSize(bankA, 0, 0, NUM_GPR);
    BankSize(bankA, 2, NUM_GPR + NUM_CPR0, NUM_GPR + NUM_CPR0 + NUM_CPR1);
  }

  /** The two counts the recovery path asserts, of the integer and of the floating-point registers. */
  lemma RecoveryCounts(sys: Sys, prog: Prog, gpr: nat, cpr0: nat, cpr1: nat, fcr1: nat, robCap: nat, c: State)
    requires sys == MipsSys(prog, gpr, cpr0, cpr1, fcr1, robCap) && Reachable(sys, c)
    ensures sys.Wf() && Shape(sys, c)
    ensures Recovers(Decide(c.rob)) ==>
              && |UsedIn(sys.bankP, Retire(sys, c).used, 0)| == NUM_GPR
              && |UsedIn(sys.bankP, Retire(sys, c).used, 2)| == NUM_CPR1
  {
    hide Reachable, UsedIn, InBank, Retire, Shape, WfProg, MipsSys, Decide;
    MipsFiles(prog, gpr, cpr0, cpr1, fcr1, robCap);
    RecoveryPopcount(sys, c, 0);
    RecoveryPopcount(sys, c, 2);
  }

  /** Both destinations of every pair lie in one register file, as lo/hi and the halves of a double do. */
  ghost predicate PairsInOneFile(sys: Sys)
    requires sys.Wf()
  {
    forall pc: Word :: |Dests(sys.prog(pc))| == 2 ==> PairInOneFile(sys, sys.prog(pc))
  }

  ghost predicate PairInOneFile(sys: Sys, inst: Inst)
    requires |Dests(inst)| == 2
  {
    var ds := Dests(inst);
    ds[0] < |sys.bankA| && ds[1] < |sys.bankA| && sys.bankA[ds[0]] == sys.bankA[ds[1]]
  }

  /** Registers of one bank that are free: the count behind num_free. */
  function CountFree(bankP: seq<nat>, used: seq<bool>, b: nat, from: nat): nat
    requires |bankP| == |used| && from <= |used|
    decreases |used| - from
  {
    if from == |used| then 0
    else (if bankP[from] == b && !used[from] then 1 else 0) + CountFree(bankP, used, b, from + 1)
  }

  lemma {:induction false} CountFreeAfterTake(bankP: seq<nat>, used: seq<bool>, b: nat, p: nat, from: nat)
    requires |bankP| == |used| && from <= |used| && p < |used| && bankP[p] == b && !used[p]
    ensures CountFree(bankP, used[p := true], b, from) == CountFree(bankP, used, b, from) - (if from <= p then 1 else 0)
    decreases |used| - from
  {
    if from < |used| {
      CountFreeAfterTake(bankP, used, b, p, from + 1);
    }
  }

  lemma {:induction false} NoneFree(bankP: seq<nat>, used: seq<bool>, b: nat, from: nat)
    requires |bankP| == |used| && from <= |used|
    ensures FirstFree(bankP, used, b, from) == -1 <==> CountFree(bankP, used, b, from) == 0
    decreases |used| - from
  {
    if from < |used| {
      NoneFree(bankP, used, b, from + 1);
    }
  }

  /** The num_free test is exact: two registers can be found one after the other if and only if two are free. */
  lemma PairAvailable(sys: Sys, rat: seq<nat>, used: seq<bool>, ds: seq<Reg>)
    requires |used| == |sys.bankP| && |rat| == |sys.bankA| && |ds| == 2
    requires ds[0] < |rat| && ds[1] < |rat| && sys.bankA[ds[0]] == sys.bankA[ds[1]]
    ensures Rename(sys, rat, used, ds).Some? <==> CountFree(sys.bankP, used, sys.bankA[ds[0]], 0) >= 2
  {
    var b := sys.bankA[ds[0]];
    NoneFree(sys.bankP, used, b, 0);
    var p := FirstFree(sys.bankP, used, b, 0);
    if p != -1 {
      CountFreeAfterTake(sys.bankP, used, b, p, 0);
      NoneFree(sys.bankP, used[p := true], b, 0);
    }
  }

  // ----- the steps keep the shape ---------------------------------------------------------------------

  lemma FetchShape(sys: Sys, c: State, take: bool, ret: Word)
    requires Shape(sys, c)
    ensures Shape(sys, Fetch(sys, c, take, ret))
  {
    var d := Fetch(sys, c, take, ret);
    assert forall i :: 0 <= i < |d.rob| ==> OpShape(sys, c, c.rob[i]) ==> OpShape(sys, d, d.rob[i]);
  }

  lemma OneOpShape(sys: Sys, c: State, d: State, i: nat)
    requires Shape(sys, c) && i < |c.rob| && |d.rob| == |c.rob|
    requires d == c.(rob := d.rob, prf := d.prf, valid := d.valid) && |d.prf| == |c.prf| && |d.valid| == |c.valid|
    requires forall k :: 0 <= k < |c.rob| && k != i ==> d.rob[k] == c.rob[k]
    requires OpShape(sys, d, d.rob[i])
    ensures Shape(sys, d)
  {
    forall k | 0 <= k < |d.rob|
      ensures OpShape(sys, d, d.rob[k])
    {
      if k != i {
        assert OpShape(sys, c, c.rob[k]);
      }
    }
  }

  lemma ExecuteShape(sys: Sys, c: State, i: nat)
    requires sys.Wf() && Shape(sys, c) && i < |c.rob|
    ensures Shape(sys, Execute(sys, c, i))
  {
    hide WfProg;
    var d := Execute(sys, c, i);
    assert OpShape(sys, c, c.rob[i]);
    assert WfInst(|c.rat|, c.rob[i].inst) by { WfInstOf(sys, c, i); }
    OneOpShape(sys, c, d, i);
  }

  lemma WfInstOf(sys: Sys, c: State, i: nat)
    requires sys.Wf() && Shape(sys, c) && i < |c.rob|
    ensures WfInst(|c.rat|, c.rob[i].inst)
  {
    assert OpShape(sys, c, c.rob[i]);
  }

  lemma CompleteShape(sys: Sys, c: State, i: nat)
    requires sys.Wf() && Shape(sys, c) && i < |c.rob| && c.rob[i].stage != Waiting
    ensures Shape(sys, CompleteOp(sys, c, i))
  {
    hide WfProg, WfInst, Shape, CompleteOp;
    OpSizes(sys, c, i);
    CompleteFrame(sys, c, i);
    FinishedShape(sys, c, CompleteOp(sys, c, i), i);
    OneOpShape(sys, c, CompleteOp(sys, c, i), i);
  }

  lemma CompleteFrame(sys: Sys, c: State, i: nat)
    requires sys.Wf() && Shape(sys, c) && i < |c.rob| && c.rob[i].stage != Waiting
    ensures var d := CompleteOp(sys, c, i);
            && d == c.(rob := c.rob[i := c.rob[i].(stage := Complete)], prf := d.prf, valid := d.valid)
            && |d.prf| == |c.prf| && |d.valid| == |c.valid|
  {
    hide WfProg, Shape, LoadValues, WfInst, IsNew;
    OpSizes(sys, c, i);
  }

  lemma FinishedShape(sys: Sys, c: State, d: State, i: nat)
    requires i < |c.rob| && OpShape(sys, c, c.rob[i]) && c.rob[i].stage != Waiting
    requires d == c.(rob := c.rob[i := c.rob[i].(stage := Complete)], prf := d.prf, valid := d.valid)
    requires |d.prf| == |c.prf|
    ensures OpShape(sys, d, d.rob[i])
  {
  }

  lemma AllocatedInst(sys: Sys, c: State)
    requires sys.Wf() && Shape(sys, c) && |c.fq| > 0 && PairsInOneFile(sys)
    ensures var f := c.fq[0]; var ds := Dests(f.inst);
            && f.inst == sys.prog(f.pc) && |ds| <= 2
            && (forall j :: 0 <= j < |ds| ==> ds[j] < |c.rat|)
            && (|ds| == 2 ==> ds[0] != ds[1] && sys.bankA[ds[0]] == sys.bankA[ds[1]])
            && (forall k :: 0 <= k < |f.inst.srcs| ==> f.inst.srcs[k] < |c.rat|)
  {
  }

  /** What a successful allocation makes of the state, field by field. */
  lemma AllocateFields(sys: Sys, c: State, ds: seq<Dest>, slot: int)
    requires sys.Wf() && Shape(sys, c) && |c.fq| > 0 && |c.rob| < sys.robCap && PairsInOneFile(sys)
    requires Rename(sys, c.rat, c.used, Dests(c.fq[0].inst)) == Some(ds)
    requires if c.fq[0].inst.Load? then slot == FirstEmpty(c.ldTbl, 0) != -1 else slot == -1
    ensures DestsIn(|c.rat|, |c.used|, ds)
    ensures forall k :: 0 <= k < |c.fq[0].inst.srcs| ==> c.fq[0].inst.srcs[k] < |c.rat|
    ensures CanAllocate(sys, c) && Shape(sys, Allocate(sys, c))
    ensures var f := c.fq[0];
            Allocate(sys, c) ==
            c.(rat := ApplyDests(c.rat, ds), used := MarkNew(c.used, ds, true), valid := MarkNew(c.valid, ds, false),
               rob := c.rob + [Op(f.pc, f.inst, f.npc, f.taken, ReadSrcs(c.rat, f.inst.srcs), ds, slot, c.cycle,
                                  Waiting, 0, [], false, false, f.inst.Jump?, 0)],
               nextId := c.nextId + 1, ldTbl := if f.inst.Load? then c.ldTbl[slot := c.nextId] else c.ldTbl,
               fq := c.fq[1..])
  {
    hide WfProg, Rename, ApplyDests, MarkNew, ReadSrcs, FirstEmpty, PairsInOneFile;
    AllocatedInst(sys, c);
    assert CanAllocate(sys, c);
    AllocateShape(sys, c);
  }

  lemma ShapeSizes(sys: Sys, c: State)
    requires Shape(sys, c)
    ensures |c.rat| == |c.ratR| == |c.arch| == |sys.bankA|
    ensures |c.used| == |c.usedR| == |c.valid| == |c.prf| == |sys.bankP|
    ensures forall a :: 0 <= a < |c.ratR| ==> c.ratR[a] < |c.prf|
  {
  }

  lemma OpSizes(sys: Sys, c: State, i: nat)
    requires sys.Wf() && Shape(sys, c) && i < |c.rob|
    ensures var op := c.rob[i];
            && WfInst(|c.rat|, op.inst) && OpShape(sys, c, op)
            && (op.inst.Load? ==> |op.dests| == LoadResults(op.inst.lk))
            && (op.inst.Store? && op.stage != Waiting ==> |op.vals| == (if op.inst.sk.Sdc1? then 3 else 2))
            && |c.used| == |c.usedR| == |c.valid| == |c.prf| && |c.ratR| == |c.arch| == |c.rat|
  {
  }

  /** What retiring the head needs, and what it makes of the state, field by field. */
  lemma RetireFields(sys: Sys, c: State)
    requires sys.Wf() && Shape(sys, c) && |c.rob| > 0 && c.rob[0].stage == Complete
    ensures |c.used| == |c.usedR| == |c.valid| == |c.prf| && |c.ratR| == |c.arch|
    ensures var op := c.rob[0];
            && DestsIn(|c.ratR|, |c.prf|, op.dests) && (op.inst.Load? ==> 0 <= op.ldSlot < |c.ldTbl|)
            && (op.inst.Store? ==> |op.vals| == (if op.inst.sk.Sdc1? then 3 else 2))
    ensures Shape(sys, RetireHead(sys, c))
    ensures var op := c.rob[0];
            RetireHead(sys, c) ==
            c.(used := MarkPrev(c.used, op.dests, false), valid := MarkPrev(c.valid, op.dests, false),
               ratR := ApplyDests(c.ratR, op.dests), usedR := RetireMarks(c.usedR, op.dests),
               arch := RetireArch(c.arch, c.prf, op.dests),
               mem := if op.inst.Store? then WriteBytes(c.mem, op.ea, StoreBytes(op.inst.sk, op.vals)) else c.mem,
               ldTbl := if op.inst.Load? then c.ldTbl[op.ldSlot := -1] else c.ldTbl,
               targets := if op.inst.Jump? then c.targets[op.pc := op.correctPc]
                          else if op.inst.Branch? then c.targets[op.pc := BranchTarget(op.pc, op.inst)]
                          else c.targets,
               rob := (if op.inst.Store? && Violation(c, op) then FlagLoads(c) else c.rob)[1..],
               retired := c.retired + [op.pc])
  {
    hide WfProg, Violation, FlagLoads, RetireMarks, ApplyDests, MarkPrev, RetireArch, WriteBytes, StoreBytes;
    OpSizes(sys, c, 0);
    RetireHeadShape(sys, c);
  }

  lemma ViolationSame(c: State, d: State, op: Op)
    requires c.ldTbl == d.ldTbl && c.rob == d.rob && c.nextId == d.nextId
    ensures Violation(c, op) == Violation(d, op) && FlagLoads(c) == FlagLoads(d)
  {
    assert forall id :: Conflicts(c, op, id) == Conflicts(d, op, id);
  }

  lemma RetireHeadNext(sys: Sys, c: State)
    requires sys.Wf() && Shape(sys, c) && |c.rob| > 1 && c.rob[0].stage == Complete
    ensures |RetireHead(sys, c).rob| > 0 && RetireHead(sys, c).rob[0].stage == c.rob[1].stage
  {
    hide WfProg, Shape;
  }

  lemma FlushShape(sys: Sys, c: State, pc: Word)
    requires Shape(sys, c)
    ensures Shape(sys, Flush(c, pc))
  {
  }

  lemma BitsOfAppend(mapping: seq<nat>, n: nat, p: nat)
    requires p < n
    ensures BitsOf(mapping + [p], n) == BitsOf(mapping, n)[p := true]
  {
  }

  lemma ResetIsInitial(sys: Sys, c: State)
    requires sys.Wf() && |c.rat| == |c.arch| == |sys.bankA| && |c.prf| == |sys.bankP|
    requires c.rat == c.ratR && Distinct(c.rat) && Banked(sys.bankA, sys.bankP, c.rat)
    requires forall a :: 0 <= a < |c.rat| ==> c.rat[a] < |c.prf| && c.prf[c.rat[a]] == c.arch[a]
    requires c.used == c.usedR == c.valid == BitsOf(c.rat, |sys.bankP|)
    requires c.rob == [] && c.fq == [] && c.slotPc == 0 && c.targets == map[] && c.retired == []
    requires forall s :: 0 <= s < |c.ldTbl| ==> c.ldTbl[s] == -1
    ensures Initial(sys, c) && Shape(sys, c)
  {
    hide Distinct, BitsOf, WfProg;
  }

  /** What the retire stage reads of the reorder buffer when that is the ring: the head, and the entry behind it. With
      two slots or more it decides as Decide does on the contents; with one slot a branch is taken for its own slot. */
  method DecideFromRing(q: Ring.SimQueue<Op>) returns (a: Action)
    requires q.Valid()
    ensures q.len >= 2 ==> a == Decide(q.contents)
    ensures q.len == 1 ==> a == Decide(q.contents + q.contents)
  {
    if q.Empty() {
      return Stall;
    }
    var head := q.Peek();
    var u := head.value;
    if u.stage != Complete {
      return Stall;
    }
    var next := q.PeekNextPop();
    var slotDone := next.Some? && next.value.stage == Complete;
    if u.brExc && !u.hasDelay {
      return OneThenFlush(u.correctPc);
    } else if u.loadExc && !u.brExc {
      return FlushTo(u.pc);
    } else if u.hasDelay && !slotDone {
      return Stall;
    } else if u.hasDelay && (next.value.loadExc || (u.brExc && next.value.brExc)) {
      return FlushTo(u.pc);
    } else {
      return if u.brExc then TwoThenFlush(u.correctPc) else One;
    }
  }

  class SimState {
    const sys: Sys
    const rat: array<nat>
    const ratR: array<nat>
    const used: array<bool>
    const usedR: array<bool>
    const valid: array<bool>
    const prf: array<Word>
    const arch: array<Word>
    const ldTbl: array<int>
    var mem: Mem
    var rob: seq<Op>
    var nextId: nat
    var fq: seq<Fetched>
    var fetchPc: Word
    var slotPc: Word
    var targets: map<Word, Word>
    var cycle: nat
    ghost var retired: seq<Word>

    ghost function View(): State
      reads this, rat, ratR, used, usedR, valid, prf, arch, ldTbl
    {
      State(rat[..], ratR[..], used[..], usedR[..], valid[..], prf[..], arch[..], mem,
            rob, nextId, ldTbl[..], fq, fetchPc, slotPc, targets, cycle, retired)
    }

    /** The arrays are distinct and the state is well shaped; a pair of destinations lies in one register file. */
    ghost predicate Valid()
      reads this, rat, ratR, used, usedR, valid, prf, arch, ldTbl
    {
      && rat != ratR && used != usedR && used != valid && usedR != valid && prf != arch
      && sys.Wf() && Shape(sys, View()) && nextId >= |rob|
      && PairsInOneFile(sys)
    }

    /** The reset state: every register of every file mapped, free vectors and valid bits set for the mapped registers,
        the registers loaded from the interpreter's state. */
    constructor (prog: Prog, gpr: nat, cpr0: nat, cpr1: nat, fcr1: nat, robCap: nat, ldCap: nat,
                 regs: seq<Word>, m: Mem, pc: Word)
      requires EnoughRegs(gpr, cpr0, cpr1, fcr1) && |regs| == NUM_ARCH
      requires MipsSys(prog, gpr, cpr0, cpr1, fcr1, robCap).Wf()
      requires PairsInOneFile(MipsSys(prog, gpr, cpr0, cpr1, fcr1, robCap))
      ensures sys == MipsSys(prog, gpr, cpr0, cpr1, fcr1, robCap)
      ensures Valid() && Initial(sys, View()) && Start(View()) == Arch(regs, m, pc, None)
    {
      sys := MipsSys(prog, gpr, cpr0, cpr1, fcr1, robCap);
      var n := gpr + cpr0 + cpr1 + fcr1;
      rat := new nat[NUM_ARCH];
      ratR := new nat[NUM_ARCH];
      used := new bool[n](_ => false);
      usedR := new bool[n](_ => false);
      valid := new bool[n](_ => false);
      prf := new Word[n];
      arch := new Word[NUM_ARCH];
      ldTbl := new int[ldCap](_ => -1);
      mem, rob, nextId, fq, fetchPc, slotPc, targets, cycle, retired := m, [], 0, [], pc, 0, map[], 0, [];
      new;
      hide WfProg, WfInst, PairsInOneFile, ResetRat, ResetMap, MipsSys, Distinct, Banked, BitsOf, Shape, Initial;
      ResetRatOk(sys, prog, gpr, cpr0, cpr1, fcr1, robCap);
      assert |sys.bankA| == NUM_ARCH && |sys.bankP| == n by { MipsSysSizes(prog, gpr, cpr0, cpr1, fcr1, robCap); }
      Reset(ResetRat(gpr, cpr0, cpr1), regs);
    }

    /** With nothing in flight, mapping and loading the registers gives an initial state. */
    method Reset(mapping: seq<nat>, regs: seq<Word>)
      requires rat != ratR && used != usedR && used != valid && usedR != valid && prf != arch
      requires |mapping| == |regs| == rat.Length == ratR.Length == arch.Length == |sys.bankA|
      requires used.Length == usedR.Length == valid.Length == prf.Length == |sys.bankP|
      requires sys.Wf() && PairsInOneFile(sys) && Distinct(mapping) && Banked(sys.bankA, sys.bankP, mapping)
      requires forall p :: 0 <= p < used.Length ==> !used[p] && !usedR[p] && !valid[p]
      requires rob == [] && fq == [] && slotPc == 0 && targets == map[] && retired == []
      requires forall s :: 0 <= s < ldTbl.Length ==> ldTbl[s] == -1
      modifies rat, ratR, used, usedR, valid, prf, arch
      ensures Valid() && Initial(sys, View()) && Start(View()) == Arch(regs, mem, fetchPc, None)
    {
      hide WfProg, PairsInOneFile, Distinct, BitsOf, Shape, Initial;
      assert forall a :: 0 <= a < |mapping| ==> mapping[a] < used.Length;
      MapRegisters(mapping, regs);
      ResetIsInitial(sys, View());
    }

    /** Map register a to physical register map[a] in both tables, mark it used and valid, and load its value. */
    method MapRegisters(mapping: seq<nat>, regs: seq<Word>)
      requires rat != ratR && used != usedR && used != valid && usedR != valid && prf != arch
      requires |mapping| == |regs| == rat.Length == ratR.Length == arch.Length
      requires used.Length == usedR.Length == valid.Length == prf.Length
      requires Distinct(mapping) && forall a :: 0 <= a < |mapping| ==> mapping[a] < used.Length
      requires forall p :: 0 <= p < used.Length ==> !used[p] && !usedR[p] && !valid[p]
      modifies rat, ratR, used, usedR, valid, prf, arch
      ensures rat[..] == ratR[..] == mapping && arch[..] == regs
      ensures used[..] == usedR[..] == valid[..] == BitsOf(mapping, used.Length)
      ensures forall a :: 0 <= a < |mapping| ==> prf[mapping[a]] == regs[a]
    {
      assert used[..] == usedR[..] == valid[..] == BitsOf([], used.Length);
      hide BitsOf;
      for a := 0 to |mapping|
        invariant rat[..a] == ratR[..a] == mapping[..a] && arch[..a] == regs[..a]
        invariant used[..] == usedR[..] == valid[..] == BitsOf(mapping[..a], used.Length)
        invariant forall k :: 0 <= k < a ==> prf[mapping[k]] == regs[k]
      {
        BitsOfAppend(mapping[..a], used.Length, mapping[a]);
        assert mapping[..a + 1] == mapping[..a] + [mapping[a]];
        MapRegister(a, mapping[a], regs[a]);
      }
      assert mapping[..|mapping|] == mapping;
    }

    method MapRegister(a: Reg, p: nat, v: Word)
      requires rat != ratR && used != usedR && used != valid && usedR != valid && prf != arch
      requires a < rat.Length == ratR.Length == arch.Length
          && p < used.Length == usedR.Length == valid.Length == prf.Length
      modifies rat, ratR, used, usedR, valid, prf, arch
      ensures rat[..] == old(rat[..])[a := p] && ratR[..] == old(ratR[..])[a := p] && arch[..] == old(arch[..])[a := v]
      ensures used[..] == old(used[..])[p := true] && usedR[..] == old(usedR[..])[p := true]
      ensures valid[..] == old(valid[..])[p := true] && prf[..] == old(prf[..])[p := v]
    {
      rat[a], ratR[a] := p, p;
      used[p] := true;
      usedR[p] := true;
      valid[p] := true;
      prf[p] := v;
      arch[a] := v;
    }

    // ----- fetch ----------------------------------------------------------------------------------

    /** One trip round the fetch loop; take and ret are the predictors' answers. */
    method FetchOne(take: bool, ret: Word)
      requires Valid()
      modifies this`fq, this`fetchPc, this`slotPc
      ensures Valid() && View() == Fetch(sys, old(View()), take, ret)
    {
      hide Shape, WfProg;
      FetchShape(sys, View(), take, ret);
      if slotPc != 0 {
        fq := fq + [Fetched(slotPc, sys.prog(slotPc), Wrap(slotPc + 4), false)];
        slotPc := 0;
        return;
      }
      var inst := sys.prog(fetchPc);
      var npc := Wrap(fetchPc + 4);
      var taken := false;
      var slot: Word := 0;
      if inst.Jump? && inst.jk.Jr? {
        npc, slot := ret, Wrap(fetchPc + 4);
      } else if inst.Jump? && (inst.jk.Jal? || inst.jk.J?) {
        npc, slot, taken := JumpTarget(fetchPc, inst), Wrap(fetchPc + 4), true;
      } else if fetchPc in targets {
        if take {
          npc, slot, taken := targets[fetchPc], Wrap(fetchPc + 4), true;
        }
      } else if inst.Branch? && inst.hint.LikelyOpcode? {
        npc, slot, taken := BranchTarget(fetchPc, inst), Wrap(fetchPc + 4), true;
      } else if inst.Branch? && inst.hint.NonLikelyOpcode? {
        if BranchTarget(fetchPc, inst) < fetchPc {
          npc, slot, taken := BranchTarget(fetchPc, inst), Wrap(fetchPc + 4), true;
        }
      }
      fq := fq + [Fetched(fetchPc, inst, npc, taken)];
      fetchPc := npc;
      slotPc := slot;
    }

    // ----- allocate --------------------------------------------------------------------------------

    method FindFree(b: nat) returns (r: int)
      requires |sys.bankP| == used.Length
      ensures r == FirstFree(sys.bankP, used[..], b, 0)
    {
      for p := 0 to used.Length
        invariant FirstFree(sys.bankP, used[..], b, 0) == FirstFree(sys.bankP, used[..], b, p)
      {
        if sys.bankP[p] == b && !used[p] {
          return p;
        }
      }
      return -1;
    }

    method NumFree(b: nat) returns (n: nat)
      requires |sys.bankP| == used.Length
      ensures n == CountFree(sys.bankP, used[..], b, 0)
    {
      n := 0;
      for p := 0 to used.Length
        invariant n + CountFree(sys.bankP, used[..], b, p) == CountFree(sys.bankP, used[..], b, 0)
      {
        if sys.bankP[p] == b && !used[p] {
          n := n + 1;
        }
      }
    }

    method FindSlot() returns (r: int)
      ensures r == FirstEmpty(ldTbl[..], 0)
    {
      for s := 0 to ldTbl.Length
        invariant FirstEmpty(ldTbl[..], 0) == FirstEmpty(ldTbl[..], s)
      {
        if ldTbl[s] == -1 {
          return s;
        }
      }
      return -1;
    }

    /** Take new registers for up to two destinations, in place; nothing changes when a file is exhausted. */
    method RenameDests(ds: seq<Reg>) returns (dests: Option<seq<Dest>>)
      requires rat.Length == |sys.bankA| && used.Length == valid.Length == |sys.bankP| && used != valid && |ds| <= 2
      requires forall j :: 0 <= j < |ds| ==> ds[j] < rat.Length
      requires |ds| == 2 ==> ds[0] != ds[1] && sys.bankA[ds[0]] == sys.bankA[ds[1]]
      modifies rat, used, valid
      ensures dests == Rename(sys, old(rat[..]), old(used[..]), ds)
      ensures dests.Some? ==>
                var v := dests.value;
                && |v| == |ds| && (forall j :: 0 <= j < |v| ==> v[j].arch < rat.Length && v[j].prf < used.Length)
                && rat[..] == ApplyDests(old(rat[..]), v)
                && used[..] == MarkNew(old(used[..]), v, true) && valid[..] == MarkNew(old(valid[..]), v, false)
      ensures dests.None? ==> rat[..] == old(rat[..]) && used[..] == old(used[..]) && valid[..] == old(valid[..])
    {
      if |ds| == 0 {
        return Some([]);
      } else if |ds| == 1 {
        var p := FindFree(sys.bankA[ds[0]]);
        if p == -1 {
          return None;
        }
        dests := Some([Dest(ds[0], p, rat[ds[0]])]);
        used[p] := true;
        rat[ds[0]] := p;
        valid[p] := false;
      } else {
        var free := NumFree(sys.bankA[ds[0]]);
        PairAvailable(sys, rat[..], used[..], ds);
        if free < 2 {
          return None;
        }
        var prev, auxPrev := rat[ds[0]], rat[ds[1]];
        var p := FindFree(sys.bankA[ds[0]]);
        used[p] := true;
        assert used[..] == old(used[..])[p := true];
        var q := FindFree(sys.bankA[ds[1]]);
        used[q] := true;
        dests := Some([Dest(ds[0], p, prev), Dest(ds[1], q, auxPrev)]);
        rat[ds[0]] := p;
        rat[ds[1]] := q;
        valid[p] := false;
        valid[q] := false;
      }
    }

    /** The oldest decoded op enters the reorder buffer and, if it is a load, the load table. */
    method Enqueue(srcs: seq<nat>, ds: seq<Dest>, slot: int)
      requires |fq| > 0 && (fq[0].inst.Load? ==> 0 <= slot < ldTbl.Length)
      modifies this`rob, this`nextId, this`fq, ldTbl
      ensures var f := old(fq[0]);
              && rob == old(rob) + [Op(f.pc, f.inst, f.npc, f.taken, srcs, ds, slot, cycle, Waiting, 0, [], false,
                                       false, f.inst.Jump?, 0)]
              && nextId == old(nextId) + 1 && fq == old(fq)[1..]
              && ldTbl[..] == if f.inst.Load? then old(ldTbl[..])[slot := old(nextId)] else old(ldTbl[..])
    {
      var f := fq[0];
      if f.inst.Load? {
        ldTbl[slot] := nextId;
      }
      rob := rob + [Op(f.pc, f.inst, f.npc, f.taken, srcs, ds, slot, cycle, Waiting, 0, [], false, false,
          f.inst.Jump?, 0)];
      nextId := nextId + 1;
      fq := fq[1..];
    }

    /** Allocation of the oldest decoded op; it fails, changing nothing, when a register file or the load table is
        full. */
    method AllocateOp() returns (ok: bool)
      requires Valid() && |fq| > 0 && |rob| < sys.robCap
      modifies this`rob, this`nextId, this`fq, rat, used, valid, ldTbl
      ensures Valid()
      ensures ok <==> CanAllocate(sys, old(View()))
      ensures View() == if ok then Core.Allocate(sys, old(View())) else old(View())
    {
      hide Shape, WfProg, Rename, ApplyDests, MarkNew, PairsInOneFile, FirstEmpty, ReadSrcs, Dests, Core.Allocate;
      ghost var c := View();
      var f := fq[0];
      ShapeSizes(sys, c);
      AllocatedInst(sys, c);
      var srcs := ReadSrcs(rat[..], f.inst.srcs);
      var slot := -1;
      if f.inst.Load? {
        slot := FindSlot();
        if slot == -1 {
          return false;
        }
      }
      var dests := RenameDests(Dests(f.inst));
      if dests.None? {
        return false;
      }
      Enqueue(srcs, dests.value, slot);
      ok := true;
      AllocateFields(sys, c, dests.value, slot);
      assert View() == Core.Allocate(sys, c);
    }

    // ----- execute and complete ----------------------------------------------------------------------

    method WriteDests(ds: seq<Dest>, vs: seq<Word>)
      requires |ds| == |vs| <= 2 && forall j :: 0 <= j < |ds| ==> ds[j].prf < prf.Length
      modifies prf
      ensures prf[..] == WritePrf(old(prf[..]), ds, vs)
    {
      for j := 0 to |ds|
        invariant prf[..] == WritePrf(old(prf[..]), ds[..j], vs[..j])
      {
        prf[ds[j].prf] := vs[j];
      }
      assert ds[..|ds|] == ds && vs[..|vs|] == vs;
    }

    method SetValid(ds: seq<Dest>)
      requires |ds| <= 2 && forall j :: 0 <= j < |ds| ==> ds[j].prf < valid.Length
      modifies valid
      ensures valid[..] == MarkNew(old(valid[..]), ds, true)
    {
      for j := 0 to |ds|
        invariant valid[..] == MarkNew(old(valid[..]), ds[..j], true)
      {
        valid[ds[j].prf] := true;
      }
      assert ds[..|ds|] == ds;
    }

    /** Dispatch of a ready op from a reservation station. */
    method ExecuteOp(i: nat)
      requires Valid() && i < |rob| && rob[i].stage == Waiting && Ready(View(), rob[i])
      modifies this`rob, prf
      ensures Valid() && View() == Core.Execute(sys, old(View()), i)
    {
      hide Shape, WfProg, WfInst, Ready;
      ghost var c := View();
      OpSizes(sys, c, i);
      var op := rob[i];
      var vals := ReadSrcs(prf[..], op.srcs);
      if !op.inst.Load? {
        WriteDests(op.dests, Results(op.pc, op.inst, vals, mem));
      }
      rob := rob[i := ExecOp(rat.Length, op, vals)];
      ExecuteShape(sys, c, i);
      assert View() == Core.Execute(sys, c, i);
    }

    /** An op whose latency has elapsed. */
    method CompleteOne(i: nat)
      requires Valid() && i < |rob| && rob[i].stage == Issued
      modifies this`rob, prf, valid
      ensures Valid() && View() == CompleteOp(sys, old(View()), i)
    {
      hide Shape, WfProg, WfInst, ExecOp;
      ghost var c := View();
      OpSizes(sys, c, i);
      var op := rob[i];
      rob := rob[i := op.(stage := Complete)];
      if op.inst.Load? {
        if !op.loadExc {
          WriteDests(op.dests, LoadValues(op.inst.lk, mem, op.ea, op.vals[|op.vals| - 1]));
          SetValid(op.dests);
        }
      } else {
        SetValid(op.dests);
      }
      CompleteShape(sys, c, i);
      assert View() == CompleteOp(sys, c, i);
    }

    // ----- retire -------------------------------------------------------------------------------------

    /** The first scan of the load table when a store retires. */
    method FindViolation(store: Op) returns (violation: bool)
      requires nextId >= |rob|
      ensures violation == Violation(View(), store)
    {
      violation := false;
      var head := nextId - |rob|;
      for s := 0 to ldTbl.Length
        invariant violation <==> exists k :: 0 <= k < s && ldTbl[k] != -1 && Conflicts(View(), store, ldTbl[k])
      {
        var j := ldTbl[s] - head;
        if ldTbl[s] != -1 && 0 <= j < |rob| && rob[j].alloc >= store.alloc &&
           rob[j].stage == Complete && Block(rob[j].ea) == Block(store.ea) {
          assert Conflicts(View(), store, ldTbl[s]);
          violation := true;
        }
      }
    }

    /** The second scan: every load in the table is flagged. */
    method FlagTable()
      requires nextId >= |rob|
      modifies this`rob
      ensures rob == FlagLoads(old(View()))
    {
      ghost var c := View();
      var head := nextId - |rob|;
      for s := 0 to ldTbl.Length
        invariant |rob| == |c.rob|
        invariant forall j :: 0 <= j < |rob| ==>
                    rob[j] == if head + j in ldTbl[..s] then c.rob[j].(loadExc := true) else c.rob[j]
      {
        var j := ldTbl[s] - head;
        if ldTbl[s] != -1 && 0 <= j < |rob| {
          rob := rob[j := rob[j].(loadExc := true)];
        }
        assert ldTbl[..s + 1] == ldTbl[..s] + [ldTbl[s]];
      }
      assert ldTbl[..ldTbl.Length] == ldTbl[..];
    }

    /** Move one destination of a retiring op into the retired tables and free its previous register. */
    method RetireDest(e: Dest)
      requires used != usedR && used != valid && usedR != valid && prf != arch && ratR != rat
      requires used.Length == usedR.Length == valid.Length == prf.Length && ratR.Length == arch.Length
      requires e.arch < ratR.Length && e.prf < used.Length && e.prev < used.Length
      modifies used, usedR, valid, ratR, arch
      ensures used[..] == old(used[..])[e.prev := false] && valid[..] == old(valid[..])[e.prev := false]
      ensures usedR[..] == old(usedR[..])[e.prf := true][e.prev := false]
      ensures ratR[..] == old(ratR[..])[e.arch := e.prf] && arch[..] == old(arch[..])[e.arch := prf[e.prf]]
    {
      used[e.prev] := false;
      valid[e.prev] := false;
      arch[e.arch] := prf[e.prf];
      ratR[e.arch] := e.prf;
      usedR[e.prf] := true;
      usedR[e.prev] := false;
    }

    method RetireDests(ds: seq<Dest>)
      requires used != usedR && used != valid && usedR != valid && prf != arch && ratR != rat
      requires used.Length == usedR.Length == valid.Length == prf.Length && ratR.Length == arch.Length
      requires DestsIn(ratR.Length, prf.Length, ds)
      modifies used, usedR, valid, ratR, arch
      ensures used[..] == MarkPrev(old(used[..]), ds, false) && valid[..] == MarkPrev(old(valid[..]), ds, false)
      ensures usedR[..] == RetireMarks(old(usedR[..]), ds)
      ensures ratR[..] == ApplyDests(old(ratR[..]), ds) && arch[..] == RetireArch(old(arch[..]), prf[..], ds)
    {
      if |ds| > 0 {
        RetireDest(ds[0]);
      }
      if |ds| > 1 {
        RetireDest(ds[1]);
      }
    }

    /** A store reaches memory and checks the load table for loads that ran ahead of it. */
    method RetireStore(op: Op)
      requires nextId >= |rob| && op.inst.Store? && |op.vals| == (if op.inst.sk.Sdc1? then 3 else 2)
      modifies this`rob, this`mem
      ensures mem == WriteBytes(old(mem), op.ea, StoreBytes(op.inst.sk, op.vals))
      ensures rob == if Violation(old(View()), op) then FlagLoads(old(View())) else old(rob)
    {
      ghost var c := View();
      mem := WriteBytes(mem, op.ea, StoreBytes(op.inst.sk, op.vals));
      var violation := FindViolation(op);
      ViolationSame(c, View(), op);
      if violation {
        FlagTable();
      }
    }

    /** What else a retiring op does: a load gives its table entry back, a store reaches memory, a branch or jump is
        recorded. */
    method RetireEffects(op: Op)
      requires nextId >= |rob| && (op.inst.Load? ==> 0 <= op.ldSlot < ldTbl.Length)
      requires op.inst.Store? ==> |op.vals| == (if op.inst.sk.Sdc1? then 3 else 2)
      modifies this`rob, this`mem, this`targets, ldTbl
      ensures ldTbl[..] == if op.inst.Load? then old(ldTbl[..])[op.ldSlot := -1] else old(ldTbl[..])
      ensures mem == if op.inst.Store? then WriteBytes(old(mem), op.ea, StoreBytes(op.inst.sk, op.vals)) else old(mem)
      ensures rob == if op.inst.Store? && Violation(old(View()), op) then FlagLoads(old(View())) else old(rob)
      ensures targets == if op.inst.Jump? then old(targets)[op.pc := op.correctPc]
                         else if op.inst.Branch? then old(targets)[op.pc := BranchTarget(op.pc, op.inst)]
                         else old(targets)
    {
      hide Violation, FlagLoads, WriteBytes, StoreBytes;
      if op.inst.Load? {
        ldTbl[op.ldSlot] := -1;
      } else if op.inst.Store? {
        RetireStore(op);
      } else if op.inst.Jump? {
        targets := targets[op.pc := op.correctPc];
      } else if op.inst.Branch? {
        targets := targets[op.pc := BranchTarget(op.pc, op.inst)];
      }
    }

    /** The oldest op leaves the reorder buffer. */
    method RetireOp()
      requires Valid() && |rob| > 0 && rob[0].stage == Complete
      modifies this`rob, this`mem, this`targets, this`retired, used, usedR, valid, ratR, arch, ldTbl
      ensures Valid() && View() == RetireHead(sys, old(View()))
    {
      hide Shape, WfProg, PairsInOneFile, Violation, FlagLoads, RetireMarks, ApplyDests, MarkPrev, RetireArch,
        WriteBytes, StoreBytes, RetireHead;
      ghost var c := View();
      RetireFields(sys, c);
      var op := rob[0];
      RetireDests(op.dests);
      ViolationSame(c, View(), op);
      RetireEffects(op);
      rob := rob[1..];
      retired := retired + [op.pc];
      assert View() == RetireHead(sys, c);
    }

    /** Recovery: flash-copy the retired tables and drop everything in flight. */
    method Recover(pc: Word)
      requires Valid()
      modifies this`rob, this`fq, this`fetchPc, this`slotPc, rat, used, valid, ldTbl
      ensures Valid() && View() == Flush(old(View()), pc)
    {
      hide WfProg, Shape, BitsOf, PairsInOneFile;
      ghost var c := View();
      ShapeSizes(sys, c);
      CopyTables();
      RebuildValid();
      ClearTable();
      rob, fq, fetchPc, slotPc := [], [], pc, 0;
      FlushShape(sys, c, pc);
      assert View() == Flush(c, pc);
    }

    method CopyTables()
      requires rat != ratR && used != usedR && rat.Length == ratR.Length && used.Length == usedR.Length
      modifies rat, used
      ensures rat[..] == ratR[..] && used[..] == usedR[..]
    {
      forall a | 0 <= a < rat.Length { rat[a] := ratR[a]; }
      forall p | 0 <= p < used.Length { used[p] := usedR[p]; }
    }

    method ClearTable()
      modifies ldTbl
      ensures ldTbl[..] == seq(ldTbl.Length, _ => -1)
    {
      forall s | 0 <= s < ldTbl.Length { ldTbl[s] := -1; }
    }

    /** Clear the valid vector and set the bit of every mapping. */
    method RebuildValid()
      requires forall a :: 0 <= a < rat.Length ==> rat[a] < valid.Length
      modifies valid
      ensures valid[..] == BitsOf(rat[..], valid.Length)
    {
      forall p | 0 <= p < valid.Length { valid[p] := false; }
      for a := 0 to rat.Length
        invariant valid[..] == BitsOf(rat[..a], valid.Length)
      {
        valid[rat[a]] := true;
        assert rat[..a + 1] == rat[..a] + [rat[a]];
      }
      assert rat[..rat.Length] == rat[..];
    }

    /** A mispredicted branch and its finished slot retire, and fetch resumes at the branch's target. */
    method RetirePair()
      requires Valid() && Decide(rob).TwoThenFlush?
      modifies this, rat, ratR, used, usedR, valid, arch, ldTbl
      ensures Valid() && View() == Core.Retire(sys, old(View()))
    {
      hide Shape, WfProg, RetireHead, Flush, PairsInOneFile;
      RetireHeadNext(sys, View());
      var target := rob[0].correctPc;
      RetireOp();
      RetireOp();
      Recover(target);
    }

    /** The head mispredicted: it retires alone if it executes no delay slot, together with the slot once that has
        finished, and not at all if the slot itself is flagged. */
    method RetireMispredicted()
      requires Valid() && |rob| > 0 && rob[0].stage == Complete && rob[0].brExc
      modifies this, rat, ratR, used, usedR, valid, arch, ldTbl
      ensures Valid() && View() == Core.Retire(sys, old(View()))
    {
      hide Shape, WfProg, RetireHead, Flush;
      var u := rob[0];
      if !u.hasDelay {
        RetireOp();
        Recover(u.correctPc);
      } else if |rob| > 1 && rob[1].stage == Complete {
        if rob[1].brExc || rob[1].loadExc {
          Recover(u.pc);
        } else {
          RetirePair();
        }
      }
    }

    /** One decision of the retire stage about the head of the reorder buffer. */
    method RetireStage()
      requires Valid()
      modifies this, rat, ratR, used, usedR, valid, arch, ldTbl
      ensures Valid() && View() == Core.Retire(sys, old(View()))
    {
      hide Shape, WfProg, RetireHead, Flush;
      if |rob| == 0 || rob[0].stage != Complete {
        return;
      }
      var u := rob[0];
      if u.brExc {
        RetireMispredicted();
      } else if u.loadExc {
        Recover(u.pc);
      } else if u.hasDelay {
        if |rob| > 1 && rob[1].stage == Complete {
          if rob[1].loadExc {
            Recover(u.pc);
          } else {
            RetireOp();
          }
        }
      } else {
        RetireOp();
      }
    }
  }
}
