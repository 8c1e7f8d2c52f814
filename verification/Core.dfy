/** The out-of-order back end as a state machine: fetch, allocate, execute, complete and retire,
    one pure step function each, taken in any order. */
module Core {
  import opened Basics
  import opened Isa

  /** The four register files lie side by side: bankA and bankP name the file of each architectural and
      each physical register. */
  datatype Sys = Sys(prog: Prog, bankA: seq<nat>, bankP: seq<nat>, robCap: nat) {
    ghost predicate Wf() {
      WfProg(|bankA|, prog)
    }
  }

  /** A renamed destination: its new physical register and the previous writer's. */
  datatype Dest = Dest(arch: Reg, prf: nat, prev: nat)

  datatype Stage = Waiting | Issued | Complete

  datatype Op = Op(pc: Word, inst: Inst, npc: Word, taken: bool,
                   srcs: seq<nat>, dests: seq<Dest>, ldSlot: int, alloc: nat, stage: Stage,
                   ea: Word, vals: seq<Word>,
                   loadExc: bool, brExc: bool, hasDelay: bool, correctPc: Word)

  datatype Fetched = Fetched(pc: Word, inst: Inst, npc: Word, taken: bool)

  /** rat, used (the free vector) and valid are speculative, ratR and usedR retired; ldTbl holds the
      allocation number of the load in each slot, or -1; retired is the history of retired pcs. */
  datatype State = State(
    rat: seq<nat>, ratR: seq<nat>, used: seq<bool>, usedR: seq<bool>, valid: seq<bool>,
    prf: seq<Word>, arch: seq<Word>, mem: Mem,
    rob: seq<Op>, nextId: nat, ldTbl: seq<int>,
    fq: seq<Fetched>, fetchPc: Word, slotPc: Word, targets: map<Word, Word>,
    cycle: nat, retired: seq<Word>)
  {
    function HeadId(): int {
      nextId - |rob|
    }
  }

  // ----- shapes -----------------------------------------------------------------------------------

  predicate DestsIn(nArch: nat, nPhys: nat, ds: seq<Dest>) {
    && |ds| <= 2
    && (forall j :: 0 <= j < |ds| ==> ds[j].arch < nArch && ds[j].prf < nPhys && ds[j].prev < nPhys)
  }

  ghost predicate OpShape(sys: Sys, c: State, op: Op) {
    && op.inst == sys.prog(op.pc)
    && |op.srcs| == |op.inst.srcs|
    && (forall k :: 0 <= k < |op.srcs| ==> op.srcs[k] < |c.prf|)
    && |op.dests| == |Dests(op.inst)|
    && DestsIn(|c.rat|, |c.prf|, op.dests)
    && (forall j :: 0 <= j < |op.dests| ==> op.dests[j].arch == Dests(op.inst)[j])
    && (op.inst.Load? ==> 0 <= op.ldSlot < |c.ldTbl|)
    && (op.stage != Waiting && (op.inst.Load? || op.inst.Store?) ==> |op.vals| == |op.inst.srcs|)
  }

  ghost predicate Shape(sys: Sys, c: State) {
    && |c.rat| == |c.ratR| == |c.arch| == |sys.bankA|
    && |c.used| == |c.usedR| == |c.valid| == |c.prf| == |sys.bankP|
    && (forall a :: 0 <= a < |c.rat| ==> c.rat[a] < |c.prf| && c.ratR[a] < |c.prf|)
    && (forall i :: 0 <= i < |c.rob| ==> OpShape(sys, c, c.rob[i]))
    && (forall k :: 0 <= k < |c.fq| ==> c.fq[k].inst == sys.prog(c.fq[k].pc))
  }

  // ----- renaming ---------------------------------------------------------------------------------

  /** find_first_unset: the least free register of a bank, or -1. */
  function FirstFree(bankP: seq<nat>, used: seq<bool>, b: nat, from: nat): (r: int)
    requires |bankP| == |used| && from <= |used|
    ensures r == -1 || (from <= r < |used| && bankP[r] == b && !used[r])
    ensures forall p :: from <= p < (if r == -1 then |used| else r) ==> bankP[p] != b || used[p]
    decreases |used| - from
  {
    if from == |used| then -1
    else if bankP[from] == b && !used[from] then from
    else FirstFree(bankP, used, b, from + 1)
  }

  predicate IsNew(ds: seq<Dest>, p: nat) {
    (|ds| > 0 && ds[0].prf == p) || (|ds| > 1 && ds[1].prf == p)
  }

  predicate IsPrev(ds: seq<Dest>, p: nat) {
    (|ds| > 0 && ds[0].prev == p) || (|ds| > 1 && ds[1].prev == p)
  }

  /** New registers for a list of destinations, or None when a bank is exhausted. */
  function Rename(sys: Sys, rat: seq<nat>, used: seq<bool>, ds: seq<Reg>): (r: Option<seq<Dest>>)
    requires |used| == |sys.bankP| && |rat| == |sys.bankA| && |ds| <= 2
    requires forall j :: 0 <= j < |ds| ==> ds[j] < |rat|
  {
    if |ds| == 0 then Some([])
    else
      var p := FirstFree(sys.bankP, used, sys.bankA[ds[0]], 0);
      if p == -1 then None
      else if |ds| == 1 then Some([Dest(ds[0], p, rat[ds[0]])])
      else
        var q := FirstFree(sys.bankP, used[p := true], sys.bankA[ds[1]], 0);
        if q == -1 then None else Some([Dest(ds[0], p, rat[ds[0]]), Dest(ds[1], q, rat[ds[1]])])
  }

  function ApplyDests(rat: seq<nat>, ds: seq<Dest>): (r: seq<nat>)
    requires |ds| <= 2 && forall j :: 0 <= j < |ds| ==> ds[j].arch < |rat|
    ensures |r| == |rat|
  {
    if |ds| == 0 then rat
    else if |ds| == 1 then rat[ds[0].arch := ds[0].prf]
    else rat[ds[0].arch := ds[0].prf][ds[1].arch := ds[1].prf]
  }

  function MarkNew(bits: seq<bool>, ds: seq<Dest>, v: bool): (r: seq<bool>)
    requires |ds| <= 2 && forall j :: 0 <= j < |ds| ==> ds[j].prf < |bits|
    ensures |r| == |bits| && forall p :: 0 <= p < |bits| ==> r[p] == if IsNew(ds, p) then v else bits[p]
  {
    if |ds| == 0 then bits
    else if |ds| == 1 then bits[ds[0].prf := v]
    else bits[ds[0].prf := v][ds[1].prf := v]
  }

  function MarkPrev(bits: seq<bool>, ds: seq<Dest>, v: bool): (r: seq<bool>)
    requires |ds| <= 2 && forall j :: 0 <= j < |ds| ==> ds[j].prev < |bits|
    ensures |r| == |bits| && forall p :: 0 <= p < |bits| ==> r[p] == if IsPrev(ds, p) then v else bits[p]
  {
    if |ds| == 0 then bits
    else if |ds| == 1 then bits[ds[0].prev := v]
    else bits[ds[0].prev := v][ds[1].prev := v]
  }

  /** The retired free vector as one op retires: each new register is set and its previous one cleared, in turn. */
  function RetireMarks(bits: seq<bool>, ds: seq<Dest>): (r: seq<bool>)
    requires |ds| <= 2 && forall j :: 0 <= j < |ds| ==> ds[j].prf < |bits| && ds[j].prev < |bits|
    ensures |r| == |bits|
  {
    if |ds| == 0 then bits
    else if |ds| == 1 then bits[ds[0].prf := true][ds[0].prev := false]
    else bits[ds[0].prf := true][ds[0].prev := false][ds[1].prf := true][ds[1].prev := false]
  }

  function WritePrf(prf: seq<Word>, ds: seq<Dest>, vs: seq<Word>): (r: seq<Word>)
    requires |ds| == |vs| <= 2 && forall j :: 0 <= j < |ds| ==> ds[j].prf < |prf|
    ensures |r| == |prf|
    ensures forall p :: 0 <= p < |prf| && !IsNew(ds, p) ==> r[p] == prf[p]
  {
    if |ds| == 0 then prf
    else if |ds| == 1 then prf[ds[0].prf := vs[0]]
    else prf[ds[0].prf := vs[0]][ds[1].prf := vs[1]]
  }

  // ----- fetch ------------------------------------------------------------------------------------

  /** The fetch engine's position: next pc, and the pending delay-slot pc or 0. */
  datatype Walker = Walker(pc: Word, slot: Word)

  /** Fetch past the instruction at w.pc. Branches seen retiring before take their recorded target when the
      predictor says so; ret is whatever the return-address stack holds. */
  function Predict(targets: map<Word, Word>, pc: Word, inst: Inst, take: bool, ret: Word): (bool, Walker) {
    if inst.Jump? && inst.jk.Jr? then (false, Walker(ret, Wrap(pc + 4)))
    else if inst.Jump? && (inst.jk.Jal? || inst.jk.J?) then (true, Walker(JumpTarget(pc, inst), Wrap(pc + 4)))
    else if pc in targets then
      if take then (true, Walker(targets[pc], Wrap(pc + 4))) else (false, Walker(Wrap(pc + 4), 0))
    else if inst.Branch? &&
            (inst.hint.LikelyOpcode? || (inst.hint.NonLikelyOpcode? && BranchTarget(pc, inst) < pc)) then
      (true, Walker(BranchTarget(pc, inst), Wrap(pc + 4)))
    else (false, Walker(Wrap(pc + 4), 0))
  }

  function Fetch(sys: Sys, c: State, take: bool, ret: Word): State {
    if c.slotPc != 0 then
      c.(fq := c.fq + [Fetched(c.slotPc, sys.prog(c.slotPc), Wrap(c.slotPc + 4), false)], slotPc := 0)
    else
      var inst := sys.prog(c.fetchPc);
      var (taken, w) := Predict(c.targets, c.fetchPc, inst, take, ret);
      c.(fq := c.fq + [Fetched(c.fetchPc, inst, w.pc, taken)], fetchPc := w.pc, slotPc := w.slot)
  }

  // ----- allocate ---------------------------------------------------------------------------------

  function FirstEmpty(tbl: seq<int>, from: nat): (r: int)
    requires from <= |tbl|
    ensures r == -1 || (from <= r < |tbl| && tbl[r] == -1)
    ensures forall s :: from <= s < (if r == -1 then |tbl| else r) ==> tbl[s] != -1
    decreases |tbl| - from
  {
    if from == |tbl| then -1 else if tbl[from] == -1 then from else FirstEmpty(tbl, from + 1)
  }

  ghost predicate CanAllocate(sys: Sys, c: State)
    requires sys.Wf() && Shape(sys, c)
  {
    && |c.fq| > 0 && |c.rob| < sys.robCap
    && Rename(sys, c.rat, c.used, Dests(c.fq[0].inst)).Some?
    && (c.fq[0].inst.Load? ==> FirstEmpty(c.ldTbl, 0) != -1)
  }

  ghost function AllocDests(sys: Sys, c: State): (ds: seq<Dest>)
    requires sys.Wf() && Shape(sys, c) && CanAllocate(sys, c)
    ensures |ds| == |Dests(c.fq[0].inst)| && DestsIn(|c.rat|, |c.prf|, ds)
    ensures forall j :: 0 <= j < |ds| ==> ds[j].arch == Dests(c.fq[0].inst)[j]
  {
    Rename(sys, c.rat, c.used, Dests(c.fq[0].inst)).value
  }

  /** The entries of a table, a register file or an alias table, at the given places. */
  function ReadSrcs<T>(table: seq<T>, srcs: seq<nat>): (r: seq<T>)
    requires forall k :: 0 <= k < |srcs| ==> srcs[k] < |table|
    ensures |r| == |srcs|
  {
    seq(|srcs|, k requires 0 <= k < |srcs| => table[srcs[k]])
  }

  /** A jump is known to have a delay slot when it is decoded, a branch only when it executes. */
  ghost function AllocOp(sys: Sys, c: State): (op: Op)
    requires sys.Wf() && Shape(sys, c) && CanAllocate(sys, c)
  {
    var f := c.fq[0];
    Op(f.pc, f.inst, f.npc, f.taken,
       ReadSrcs(c.rat, f.inst.srcs),
       AllocDests(sys, c), if f.inst.Load? then FirstEmpty(c.ldTbl, 0) else -1, c.cycle, Waiting,
       0, [], false, false, f.inst.Jump?, 0)
  }

  ghost function Allocate(sys: Sys, c: State): State
    requires sys.Wf() && Shape(sys, c) && CanAllocate(sys, c)
  {
    var ds := AllocDests(sys, c);
    var op := AllocOp(sys, c);
    c.(rat := ApplyDests(c.rat, ds), used := MarkNew(c.used, ds, true), valid := MarkNew(c.valid, ds, false),
       rob := c.rob + [op], nextId := c.nextId + 1,
       ldTbl := if op.inst.Load? then c.ldTbl[op.ldSlot := c.nextId] else c.ldTbl,
       fq := c.fq[1..])
  }

  // ----- execute and complete -----------------------------------------------------------------------

  predicate Ready(c: State, op: Op)
    requires forall k :: 0 <= k < |op.srcs| ==> op.srcs[k] < |c.valid|
  {
    forall k :: 0 <= k < |op.srcs| ==> c.valid[op.srcs[k]]
  }

  function ExecOp(nArch: nat, op: Op, vals: seq<Word>): Op
    requires WfInst(nArch, op.inst) && |vals| == |op.inst.srcs|
  {
    match op.inst
    case Load(k, _, _, _) =>
      var ea := EffAddr(op.inst, vals);
      op.(stage := Issued, ea := ea, vals := vals, loadExc := op.loadExc || !LoadAligned(k, ea))
    case Store(_, _, _) => op.(stage := Issued, ea := EffAddr(op.inst, vals), vals := vals)
    case Branch(_, cond, _, likely, _) =>
      var take := cond(vals);
      op.(stage := Issued, hasDelay := ExecutesSlot(op.inst, vals), correctPc := ControlTarget(op.pc, op.inst, vals),
          brExc := op.taken != take || (!take && likely && op.npc != Wrap(op.pc + 8)))
    case Jump(_, _, _, _) =>
      var target := ControlTarget(op.pc, op.inst, vals);
      op.(stage := Issued, correctPc := target, brExc := op.npc != target)
    case _ => op.(stage := Issued)
  }

  /** Everything but a load writes its destinations when it executes; they become valid when it completes. */
  ghost function Execute(sys: Sys, c: State, i: nat): State
    requires sys.Wf() && Shape(sys, c) && i < |c.rob|
  {
    var op := c.rob[i];
    var vals := ReadSrcs(c.prf, op.srcs);
    c.(rob := c.rob[i := ExecOp(|c.rat|, op, vals)],
       prf := if op.inst.Load? then c.prf else WritePrf(c.prf, op.dests, Results(op.pc, op.inst, vals, c.mem)))
  }

  /** A load reads memory when it completes; one already flagged delivers nothing. */
  ghost function CompleteOp(sys: Sys, c: State, i: nat): State
    requires sys.Wf() && Shape(sys, c) && i < |c.rob| && c.rob[i].stage != Waiting
  {
    var op := c.rob[i];
    var done := c.(rob := c.rob[i := op.(stage := Complete)]);
    if op.inst.Load? then
      if op.loadExc then done
      else
        var vs := LoadValues(op.inst.lk, c.mem, op.ea, op.vals[|op.vals| - 1]);
        done.(prf := WritePrf(c.prf, op.dests, vs), valid := MarkNew(c.valid, op.dests, true))
    else
      done.(valid := MarkNew(c.valid, op.dests, true))
  }

  // ----- retire -----------------------------------------------------------------------------------

  /** A load in the table, not allocated in an earlier cycle, that has completed in the store's block. */
  predicate Conflicts(c: State, store: Op, id: int) {
    var j := id - c.HeadId();
    0 <= j < |c.rob| && c.rob[j].alloc >= store.alloc && c.rob[j].stage == Complete
        && Block(c.rob[j].ea) == Block(store.ea)
  }

  predicate Violation(c: State, store: Op) {
    exists s :: 0 <= s < |c.ldTbl| && c.ldTbl[s] != -1 && Conflicts(c, store, c.ldTbl[s])
  }

  function FlagLoads(c: State): (r: seq<Op>)
    ensures |r| == |c.rob|
  {
    seq(|c.rob|, j requires 0 <= j < |c.rob| =>
      if c.HeadId() + j in c.ldTbl then c.rob[j].(loadExc := true) else c.rob[j])
  }

  /** The ops behind the head once it has retired, flagged if the head stored into a finished load's block. */
  ghost function Remaining(c: State): (r: seq<Op>)
    requires |c.rob| > 0
    ensures |r| == |c.rob| - 1
    ensures forall k :: 0 <= k < |r| ==> r[k] == c.rob[k + 1].(loadExc := r[k].loadExc)
    ensures forall k :: 0 <= k < |r| && c.rob[k + 1].loadExc ==> r[k].loadExc
  {
    (if c.rob[0].inst.Store? && Violation(c, c.rob[0]) then FlagLoads(c) else c.rob)[1..]
  }

  function RetireArch(arch: seq<Word>, prf: seq<Word>, ds: seq<Dest>): (r: seq<Word>)
    requires DestsIn(|arch|, |prf|, ds)
    ensures |r| == |arch|
  {
    if |ds| == 0 then arch
    else if |ds| == 1 then arch[ds[0].arch := prf[ds[0].prf]]
    else arch[ds[0].arch := prf[ds[0].prf]][ds[1].arch := prf[ds[1].prf]]
  }

  /** The head leaves the reorder buffer: registers, free lists, memory, violation check, branch target record. */
  ghost function RetireHead(sys: Sys, c: State): State
    requires sys.Wf() && Shape(sys, c) && |c.rob| > 0 && c.rob[0].stage == Complete
  {
    var op := c.rob[0];
    c.(used := MarkPrev(c.used, op.dests, false), valid := MarkPrev(c.valid, op.dests, false),
       ratR := ApplyDests(c.ratR, op.dests),
       usedR := RetireMarks(c.usedR, op.dests),
       arch := RetireArch(c.arch, c.prf, op.dests),
       mem := if op.inst.Store? then WriteBytes(c.mem, op.ea, StoreBytes(op.inst.sk, op.vals)) else c.mem,
       ldTbl := if op.inst.Load? then c.ldTbl[op.ldSlot := -1] else c.ldTbl,
       targets := if op.inst.Jump? then c.targets[op.pc := op.correctPc]
                  else if op.inst.Branch? then c.targets[op.pc := BranchTarget(op.pc, op.inst)]
                  else c.targets,
       rob := Remaining(c), retired := c.retired + [op.pc])
  }

  /** Bits set exactly at the registers a map names. */
  ghost function BitsOf(rat: seq<nat>, n: nat): (r: seq<bool>)
    ensures |r| == n
  {
    seq(n, p => p in rat)
  }

  /** The flash recovery: speculative tables are copied from the retired ones and everything in flight is dropped. */
  ghost function Flush(c: State, pc: Word): State {
    c.(rat := c.ratR, used := c.usedR, valid := BitsOf(c.ratR, |c.valid|), rob := [],
       ldTbl := seq(|c.ldTbl|, _ => -1), fq := [], fetchPc := pc, slotPc := 0)
  }

  datatype Action = Stall | One | FlushTo(pc: Word) | OneThenFlush(pc: Word) | TwoThenFlush(pc: Word)

  /** What the retire stage does with the head of the reorder buffer. */
  function Decide(rob: seq<Op>): Action {
    if |rob| == 0 || rob[0].stage != Complete then Stall
    else
      var u := rob[0];
      var slotDone := |rob| > 1 && rob[1].stage == Complete;
      if u.brExc then
        if !u.hasDelay then OneThenFlush(u.correctPc)
        else if !slotDone then Stall
        else if rob[1].brExc || rob[1].loadExc then FlushTo(u.pc)
        else TwoThenFlush(u.correctPc)
      else if u.loadExc then FlushTo(u.pc)
      else if u.hasDelay then
        if !slotDone then Stall
        else if rob[1].loadExc then FlushTo(u.pc)
        else One
      else One
  }

  lemma RetireHeadShape(sys: Sys, c: State)
    requires sys.Wf() && Shape(sys, c) && |c.rob| > 0 && c.rob[0].stage == Complete
    ensures Shape(sys, RetireHead(sys, c))
  {
    hide Remaining;
    var d := RetireHead(sys, c);
    forall i | 0 <= i < |d.rob|
      ensures OpShape(sys, d, d.rob[i])
    {
      assert OpShape(sys, c, c.rob[i + 1]);
    }
  }

  ghost function Retire(sys: Sys, c: State): State
    requires sys.Wf() && Shape(sys, c)
  {
    match Decide(c.rob)
    case Stall => c
    case One => RetireHead(sys, c)
    case FlushTo(pc) => Flush(c, pc)
    case OneThenFlush(pc) => Flush(RetireHead(sys, c), pc)
    case TwoThenFlush(pc) =>
      RetireHeadShape(sys, c);
      Flush(RetireHead(sys, RetireHead(sys, c)), pc)
  }

  // ----- runs -------------------------------------------------------------------------------------

  /** One scheduling choice; take and ret are whatever the predictors answer. */
  datatype Step =
    FetchStep(take: bool, ret: Word) | AllocStep | ExecStep(i: nat) | CompleteStep(i: nat) | RetireStep | Tick

  ghost predicate Enabled(sys: Sys, c: State, st: Step)
    requires sys.Wf() && Shape(sys, c)
  {
    match st
    case AllocStep => CanAllocate(sys, c)
    case ExecStep(i) => i < |c.rob| && c.rob[i].stage == Waiting && Ready(c, c.rob[i])
    case CompleteStep(i) => i < |c.rob| && c.rob[i].stage == Issued
    case _ => true
  }

  ghost function Next(sys: Sys, c: State, st: Step): State
    requires sys.Wf() && Shape(sys, c) && Enabled(sys, c, st)
  {
    match st
    case FetchStep(take, ret) => Fetch(sys, c, take, ret)
    case AllocStep => Allocate(sys, c)
    case ExecStep(i) => Execute(sys, c, i)
    case CompleteStep(i) => CompleteOp(sys, c, i)
    case RetireStep => Retire(sys, c)
    case Tick => c.(cycle := c.cycle + 1)
  }
}
