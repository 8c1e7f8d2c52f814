/** Words, byte memory, the abstract instruction set, and the in-order semantics of interpret.cc. */
module Isa {
  import opened Basics
  import opened Powers

  type Word = x: int | 0 <= x < 0x1_0000_0000
  type Byte = x: int | 0 <= x < 256
  type Reg = nat

  /** The simulated memory: a total map from 32-bit addresses to bytes. */
  type Mem = Word -> Byte

  /** Unsigned 32-bit wrap-around. */
  function Wrap(x: int): Word {
    x % 0x1_0000_0000
  }

  lemma WrapPlus(x: int, d: int)
    ensures Wrap(Wrap(x) + d) == Wrap(x + d)
  {
    var q := x / 0x1_0000_0000;
    assert Wrap(x) == x - 0x1_0000_0000 * q;
  }

  datatype LoadKind = Lb | Lbu | Lh | Lhu | Lw | Lwl | Lwr | Lwc1 | Ldc1
  datatype StoreKind = Sb | Sh | Sw | Swc1 | Sdc1
  datatype JumpKind = J | Jal | Jr | Jalr
  /** What the fetch stage reads off a branch opcode before it has ever retired. */
  datatype Hint = LikelyOpcode | NonLikelyOpcode | NoHint

  /** Operands are given in the order of the source's src0, src1, ... and results in the order of its destinations.
      The value functions are arbitrary, so the results below hold for every ALU and floating-point unit. */
  datatype Inst =
    | Alu(dests: seq<Reg>, srcs: seq<Reg>, f: seq<Word> -> (Word, Word))
    | RType(rd: Reg, srcs: seq<Reg>, g: seq<Word> -> Word)
    | Load(lk: LoadKind, dests: seq<Reg>, srcs: seq<Reg>, imm: int)
    | Store(sk: StoreKind, srcs: seq<Reg>, imm: int)
    | Branch(srcs: seq<Reg>, cond: seq<Word> -> bool, imm: int, likely: bool, hint: Hint)
    | Jump(jk: JumpKind, dests: seq<Reg>, srcs: seq<Reg>, jaddr: Word)

  type Prog = Word -> Inst

  predicate IsControl(inst: Inst) {
    inst.Branch? || inst.Jump?
  }

  /** The registers the core renames: an R-type op that names register 0 renames nothing. */
  function Dests(inst: Inst): seq<Reg> {
    match inst
    case Alu(ds, _, _) => ds
    case RType(rd, _, _) => if rd > 0 then [rd] else []
    case Load(_, ds, _, _) => ds
    case Jump(_, ds, _, _) => ds
    case _ => []
  }

  function LoadResults(k: LoadKind): nat {
    if k.Ldc1? then 2 else 1
  }

  function StoreWidth(k: StoreKind): nat {
    match k
    case Sb => 1
    case Sh => 2
    case Sw => 4
    case Swc1 => 4
    case Sdc1 => 8
  }

  predicate WfInst(nArch: nat, inst: Inst) {
    && (forall k :: 0 <= k < |inst.srcs| ==> inst.srcs[k] < nArch)
    && |Dests(inst)| <= 2
    && (forall k :: 0 <= k < |Dests(inst)| ==> Dests(inst)[k] < nArch)
    && (|Dests(inst)| == 2 ==> Dests(inst)[0] != Dests(inst)[1])
    && match inst {
         case Alu(_, _, _) => true
         case RType(rd, _, _) => rd < nArch
         case Load(k, ds, ss, _) => |ds| == LoadResults(k) && |ss| == (if k.Lwl? || k.Lwr? then 2 else 1)
         case Store(k, ss, _) => |ss| == (if k.Sdc1? then 3 else 2)
         case Branch(_, _, _, _, _) => true
         case Jump(k, ds, ss, _) =>
           && |ds| == (if k.Jal? || k.Jalr? then 1 else 0)
           && |ss| == (if k.Jr? || k.Jalr? then 1 else 0)
       }
  }

  ghost predicate WfProg(nArch: nat, prog: Prog) {
    forall pc: Word :: WfInst(nArch, prog(pc))
  }

  // ----- memory ---------------------------------------------------------------------------------

  function ByteAt(mem: Mem, a: int): Byte {
    mem(Wrap(a))
  }

  /** Big-endian fields. */
  function Half(mem: Mem, a: int): int {
    ByteAt(mem, a) * 256 + ByteAt(mem, a + 1)
  }

  function Full(mem: Mem, a: int): Word {
    Half(mem, a) * 0x1_0000 + Half(mem, a + 2)
  }

  function SignExtend(x: int, half: int): Word
    requires 0 <= x < 2 * half <= 0x1_0000
  {
    if x < half then x else x + 0x1_0000_0000 - 2 * half
  }

  function LeftMerge(r: Word, x: Word, ma: int): Word
    requires 0 <= ma < 4
  {
    if ma == 0 then r
    else if ma == 1 then (r % 0x100_0000) * 0x100 + x % 0x100
    else if ma == 2 then (r % 0x1_0000) * 0x1_0000 + x % 0x1_0000
    else (r % 0x100) * 0x100_0000 + x % 0x100_0000
  }

  function RightMerge(r: Word, x: Word, ma: int): Word
    requires 0 <= ma < 4
  {
    if ma == 0 then x - x % 0x100 + r / 0x100_0000
    else if ma == 1 then x - x % 0x1_0000 + r / 0x1_0000
    else if ma == 2 then x - x % 0x100_0000 + r / 0x100
    else r
  }

  /** The words a load delivers; x is the old destination value that lwl and lwr merge into. */
  function LoadValues(k: LoadKind, mem: Mem, ea: Word, x: Word): (r: seq<Word>)
    ensures |r| == LoadResults(k)
  {
    match k
    case Lb => [SignExtend(ByteAt(mem, ea), 0x80)]
    case Lbu => [ByteAt(mem, ea)]
    case Lh => [SignExtend(Half(mem, ea), 0x8000)]
    case Lhu => [Half(mem, ea)]
    case Lw => [Full(mem, ea)]
    case Lwl => [LeftMerge(Full(mem, ea - ea % 4), x, ea % 4)]
    case Lwr => [RightMerge(Full(mem, ea - ea % 4), x, ea % 4)]
    case Lwc1 => [Full(mem, ea)]
    case Ldc1 => [Full(mem, ea + 4), Full(mem, ea)]
  }

  /** The alignment test a load makes when it executes. */
  predicate LoadAligned(k: LoadKind, ea: Word) {
    match k
    case Lh => ea % 2 == 0
    case Lhu => ea % 2 == 0
    case Lw => ea % 4 == 0
    case Lwc1 => ea % 4 == 0
    case Ldc1 => ea % 8 == 0
    case _ => true
  }

  function WordBytes(w: Word): seq<Byte> {
    [w / 0x100_0000, w / 0x1_0000 % 0x100, w / 0x100 % 0x100, w % 0x100]
  }

  /** The bytes a store writes, lowest address first; vals are its operands: data, base and, for sdc1, the odd half. */
  function StoreBytes(k: StoreKind, vals: seq<Word>): (r: seq<Byte>)
    requires |vals| == (if k.Sdc1? then 3 else 2)
    ensures |r| == StoreWidth(k)
  {
    match k
    case Sb => [vals[0] % 0x100]
    case Sh => [vals[0] / 0x100 % 0x100, vals[0] % 0x100]
    case Sw => WordBytes(vals[0])
    case Swc1 => WordBytes(vals[0])
    case Sdc1 => WordBytes(vals[2]) + WordBytes(vals[0])
  }

  function WriteBytes(mem: Mem, ea: Word, bytes: seq<Byte>): Mem {
    (a: Word) => if Wrap(a - ea) < |bytes| then bytes[Wrap(a - ea)] else mem(a)
  }

  /** The 8-byte block the violation check compares: the address shifted right by 3. */
  function Block(a: Word): int {
    a / 8
  }

  predicate StoreFits(ea: Word, width: nat) {
    ea % 8 + width <= 8
  }

  lemma WriteOutsideBlock(mem: Mem, ea: Word, bytes: seq<Byte>, a: Word)
    requires StoreFits(ea, |bytes|) && Block(a) != Block(ea)
    ensures WriteBytes(mem, ea, bytes)(a) == mem(a)
  {
    var k := Wrap(a - ea);
    assert a == ea + k || a == ea + k - 0x1_0000_0000;
  }

  ghost predicate SameBlock(m1: Mem, m2: Mem, ea: Word) {
    forall a: Word :: Block(a) == Block(ea) ==> m1(a) == m2(a)
  }

  lemma BlockOffset(a: Word, d: nat)
    requires a % 8 + d < 8
    ensures (a + d) / 8 == a / 8 && a + d < 0x1_0000_0000
  {
    assert a == 8 * (a / 8) + a % 8;
  }

  lemma SameHalf(m1: Mem, m2: Mem, ea: Word, a: Word)
    requires SameBlock(m1, m2, ea)
    requires a / 8 == ea / 8 && a % 8 <= 6
    ensures Half(m1, a) == Half(m2, a)
  {
    BlockOffset(a, 1);
    assert Wrap(a) == a && Wrap(a + 1) == a + 1;
  }

  lemma SameFull(m1: Mem, m2: Mem, ea: Word, a: Word)
    requires SameBlock(m1, m2, ea)
    requires a / 8 == ea / 8 && a % 8 <= 4
    ensures Full(m1, a) == Full(m2, a)
  {
    SameHalf(m1, m2, ea, a);
    BlockOffset(a, 2);
    SameHalf(m1, m2, ea, a + 2);
  }

  lemma EvenInBlock(ea: Word)
    requires ea % 2 == 0
    ensures ea % 8 <= 6
  {
  }

  lemma WordInBlock(ea: Word)
    ensures (ea - ea % 4) % 8 <= 4 && (ea - ea % 4) / 8 == ea / 8
  {
    var q, r := ea / 8, ea % 8;
    assert ea == 8 * q + r;
    if r < 4 {
      QuotientUnique(ea, 4, 2 * q, r);
      QuotientUnique(ea - r, 8, q, 0);
    } else {
      QuotientUnique(ea, 4, 2 * q + 1, r - 4);
      QuotientUnique(ea - (r - 4), 8, q, 4);
    }
  }

  lemma SameDouble(m1: Mem, m2: Mem, ea: Word)
    requires SameBlock(m1, m2, ea) && ea % 8 == 0
    ensures Full(m1, ea) == Full(m2, ea) && Full(m1, ea + 4) == Full(m2, ea + 4)
  {
    hide SameBlock, Full;
    BlockOffset(ea, 4);
    SameFull(m1, m2, ea, ea);
    SameFull(m1, m2, ea, ea + 4);
  }

  /** An aligned load reads only its own block. */
  lemma LoadWithinBlock(k: LoadKind, m1: Mem, m2: Mem, ea: Word, x: Word)
    requires LoadAligned(k, ea) && SameBlock(m1, m2, ea)
    ensures LoadValues(k, m1, ea, x) == LoadValues(k, m2, ea, x)
  {
    hide SignExtend, LeftMerge, RightMerge, Half, Full;
    if k.Lb? || k.Lbu? {
      assert ByteAt(m1, ea) == ByteAt(m2, ea);
    } else if k.Lh? || k.Lhu? {
      hide SameBlock;
      EvenInBlock(ea);
      SameHalf(m1, m2, ea, ea);
    } else if k.Ldc1? {
      hide SameBlock;
      SameDouble(m1, m2, ea);
    } else {
      hide SameBlock;
      WordInBlock(ea);
      SameFull(m1, m2, ea, ea - ea % 4);
    }
  }

  /** The violation check compares blocks only, so it is sound exactly for stores that stay inside one block:
      then, and only then, no aligned load from another block can see the store. */
  lemma BlockCheckExact(ea: Word, width: nat)
    requires 0 < width <= 8
    ensures StoreFits(ea, width) <==>
            forall mem: Mem, bytes: seq<Byte>, k: LoadKind, la: Word, x: Word ::
              |bytes| == width && LoadAligned(k, la) && Block(la) != Block(ea)
              ==> LoadValues(k, WriteBytes(mem, ea, bytes), la, x) == LoadValues(k, mem, la, x)
  {
    if StoreFits(ea, width) {
      forall mem: Mem, bytes: seq<Byte>, k: LoadKind, la: Word, x: Word
        | |bytes| == width && LoadAligned(k, la) && Block(la) != Block(ea)
        ensures LoadValues(k, WriteBytes(mem, ea, bytes), la, x) == LoadValues(k, mem, la, x)
      {
        forall a: Word | Block(a) == Block(la)
          ensures WriteBytes(mem, ea, bytes)(a) == mem(a)
        {
          WriteOutsideBlock(mem, ea, bytes, a);
        }
        assert SameBlock(WriteBytes(mem, ea, bytes), mem, la);
        LoadWithinBlock(k, WriteBytes(mem, ea, bytes), mem, la, x);
      }
    } else {
      var mem: Mem := (a: Word) => 0;
      var bytes: seq<Byte> := seq(width, _ => 1);
      var la := Wrap(ea - ea % 8 + 8);
      assert Wrap(la - ea) == 8 - ea % 8;
      assert ByteAt(WriteBytes(mem, ea, bytes), la) == 1;
      assert LoadValues(Lbu, WriteBytes(mem, ea, bytes), la, 0) == [1];
      assert LoadValues(Lbu, mem, la, 0) == [0];
      assert Block(la) != Block(ea);
      assert LoadAligned(Lbu, la);
    }
  }

  // ----- in-order execution ---------------------------------------------------------------------

  /** Architectural state between two instructions; pend is the target to go to after a delay slot. */
  datatype Arch = Arch(regs: seq<Word>, mem: Mem, pc: Word, pend: Option<Word>)

  function Operands(inst: Inst, regs: seq<Word>): (r: seq<Word>)
    requires WfInst(|regs|, inst)
    ensures |r| == |inst.srcs|
  {
    seq(|inst.srcs|, k requires 0 <= k < |inst.srcs| => regs[inst.srcs[k]])
  }

  function EffAddr(inst: Inst, vals: seq<Word>): Word
    requires inst.Load? || inst.Store?
    requires if inst.Load? then |vals| > 0 else |vals| > 1
  {
    Wrap((if inst.Load? then vals[0] else vals[1]) + inst.imm)
  }

  function BranchTarget(pc: Word, inst: Inst): Word
    requires inst.Branch?
  {
    Wrap(pc + 4 + 4 * inst.imm)
  }

  /** j and jal keep the top four bits of the delay slot's address. */
  function JumpTarget(pc: Word, inst: Inst): Word
    requires inst.Jump?
  {
    Wrap(Wrap(pc + 4) / 0x1000_0000 * 0x1000_0000 + inst.jaddr % 0x1000_0000)
  }

  function ControlTarget(pc: Word, inst: Inst, vals: seq<Word>): Word
    requires IsControl(inst) && |vals| == |inst.srcs|
    requires inst.Jump? && (inst.jk.Jr? || inst.jk.Jalr?) ==> |vals| == 1
  {
    if inst.Branch? then
      if inst.cond(vals) then BranchTarget(pc, inst) else Wrap(pc + 8)
    else if inst.jk.Jr? || inst.jk.Jalr? then vals[0]
    else JumpTarget(pc, inst)
  }

  /** Only a likely branch that is not taken nullifies its delay slot. */
  predicate ExecutesSlot(inst: Inst, vals: seq<Word>)
    requires IsControl(inst)
  {
    inst.Branch? && inst.likely ==> inst.cond(vals)
  }

  /** Values an instruction delivers to its destinations. */
  function Results(pc: Word, inst: Inst, vals: seq<Word>, mem: Mem): (r: seq<Word>)
    requires |vals| == |inst.srcs|
    requires inst.Load? ==> |vals| == (if inst.lk.Lwl? || inst.lk.Lwr? then 2 else 1)
    requires |Dests(inst)| <= 2
    requires inst.Load? ==> |inst.dests| == LoadResults(inst.lk)
    ensures |r| == |Dests(inst)|
  {
    match inst
    case Alu(ds, _, f) => [f(vals).0, f(vals).1][..|ds|]
    case RType(rd, _, g) => if rd > 0 then [g(vals)] else []
    case Load(k, _, _, _) => LoadValues(k, mem, EffAddr(inst, vals), vals[|vals| - 1])
    case Jump(_, ds, _, _) => [Wrap(pc + 8), Wrap(pc + 8)][..|ds|]
    case _ => []
  }

  function WriteRegs(regs: seq<Word>, ds: seq<Reg>, vs: seq<Word>): (r: seq<Word>)
    requires |ds| == |vs| <= 2
    requires forall k :: 0 <= k < |ds| ==> ds[k] < |regs|
    ensures |r| == |regs|
  {
    if |ds| == 0 then regs
    else if |ds| == 1 then regs[ds[0] := vs[0]]
    else regs[ds[0] := vs[0]][ds[1] := vs[1]]
  }

  /** One instruction in program order; the interpreter writes register 0 like any other. */
  function RefStep(prog: Prog, s: Arch): (r: Arch)
    requires WfProg(|s.regs|, prog)
    ensures |r.regs| == |s.regs|
  {
    var inst := prog(s.pc);
    var vals := Operands(inst, s.regs);
    var regs := if inst.RType? then s.regs[inst.rd := inst.g(vals)]
                else WriteRegs(s.regs, Dests(inst), Results(s.pc, inst, vals, s.mem));
    var mem := if inst.Store? then WriteBytes(s.mem, EffAddr(inst, vals), StoreBytes(inst.sk, vals)) else s.mem;
    if IsControl(inst) then
      if ExecutesSlot(inst, vals) then Arch(regs, mem, Wrap(s.pc + 4), Some(ControlTarget(s.pc, inst, vals)))
      else Arch(regs, mem, Wrap(s.pc + 8), None)
    else
      Arch(regs, mem, if s.pend.Some? then s.pend.value else Wrap(s.pc + 4), None)
  }

  function RefRun(prog: Prog, s: Arch, n: nat): (r: Arch)
    requires WfProg(|s.regs|, prog)
    ensures |r.regs| == |s.regs|
  {
    if n == 0 then s else RefStep(prog, RefRun(prog, s, n - 1))
  }

  /** The next instruction is a branch or jump that executes its delay slot. */
  predicate RunsSlot(prog: Prog, s: Arch)
    requires WfProg(|s.regs|, prog)
  {
    IsControl(prog(s.pc)) && ExecutesSlot(prog(s.pc), Operands(prog(s.pc), s.regs))
  }

  /** One call of execMips: a branch or jump executes its delay slot inside the same call. */
  function ExecMips(prog: Prog, s: Arch): (r: Arch)
    requires WfProg(|s.regs|, prog) && s.pend.None?
    requires RunsSlot(prog, s) ==> !IsControl(prog(Wrap(s.pc + 4)))
    ensures |r.regs| == |s.regs| && r.pend.None?
    decreases IsControl(prog(s.pc))
  {
    var inst := prog(s.pc);
    var vals := Operands(inst, s.regs);
    if inst.Jump? || inst.Branch? then
      var linked := WriteRegs(s.regs, Dests(inst), Results(s.pc, inst, vals, s.mem));
      if inst.Branch? && inst.likely && !inst.cond(vals) then
        Arch(linked, s.mem, Wrap(s.pc + 8), None)
      else
        var slot := ExecMips(prog, Arch(linked, s.mem, Wrap(s.pc + 4), None));
        if inst.Branch? && !inst.cond(vals) then slot
        else slot.(pc := ControlTarget(s.pc, inst, vals))
    else
      RefStep(prog, s)
  }

  /** How many instructions the next call of execMips executes. */
  function CallLength(prog: Prog, s: Arch): nat
    requires WfProg(|s.regs|, prog)
  {
    if RunsSlot(prog, s) then 2 else 1
  }

  /** A call of execMips is one step of the instruction-by-instruction semantics, or two when a delay slot runs. */
  lemma ExecMipsIsRefSteps(prog: Prog, s: Arch)
    requires WfProg(|s.regs|, prog) && s.pend.None?
    requires RunsSlot(prog, s) ==> !IsControl(prog(Wrap(s.pc + 4)))
    ensures ExecMips(prog, s) == RefRun(prog, s, CallLength(prog, s))
  {
    var inst := prog(s.pc);
    assert RefRun(prog, s, 1) == RefStep(prog, RefRun(prog, s, 0));
    if RunsSlot(prog, s) {
      ExecMipsWithSlot(prog, s);
      assert RefRun(prog, s, 2) == RefStep(prog, RefRun(prog, s, 1));
    }
  }

  /** Outside control flow a step differs only in its pc when a delay slot is pending. */
  lemma SlotStep(prog: Prog, s: Arch)
    requires WfProg(|s.regs|, prog) && !IsControl(prog(s.pc))
    ensures var plain := RefStep(prog, s.(pend := None));
            plain.pc == Wrap(s.pc + 4) && plain.pend.None?
            && RefStep(prog, s) == plain.(pc := if s.pend.Some? then s.pend.value else plain.pc)
  {
    hide WfInst, Results, WriteRegs, WriteBytes, StoreBytes, EffAddr, Wrap;
  }

  lemma ControlStep(prog: Prog, s: Arch)
    requires WfProg(|s.regs|, prog) && RunsSlot(prog, s)
    ensures var inst := prog(s.pc); var vals := Operands(inst, s.regs);
            RefStep(prog, s) == Arch(WriteRegs(s.regs, Dests(inst), Results(s.pc, inst, vals, s.mem)), s.mem,
                                     Wrap(s.pc + 4), Some(ControlTarget(s.pc, inst, vals)))
  {
    hide WfInst, Results, WriteRegs, WriteBytes, StoreBytes, EffAddr, BranchTarget, JumpTarget, Wrap;
  }

  lemma ExecMipsWithSlot(prog: Prog, s: Arch)
    requires WfProg(|s.regs|, prog) && s.pend.None?
    requires RunsSlot(prog, s) && !IsControl(prog(Wrap(s.pc + 4)))
    ensures ExecMips(prog, s) == RefStep(prog, RefStep(prog, s))
  {
    hide RefStep, Results, WriteRegs, BranchTarget, JumpTarget, Wrap;
    ControlStep(prog, s);
    SlotStep(prog, RefStep(prog, s));
    assert Wrap(Wrap(s.pc + 4) + 4) == Wrap(s.pc + 8) by { WrapPlus(s.pc + 4, 4); }
    assert ExecMips(prog, RefStep(prog, s).(pend := None)) == RefStep(prog, RefStep(prog, s).(pend := None));
  }

  /** After a branch or jump that executes its delay slot come the slot and then the target. */
  lemma AfterSlot(prog: Prog, s: Arch)
    requires WfProg(|s.regs|, prog) && RunsSlot(prog, s) && !IsControl(prog(Wrap(s.pc + 4)))
    ensures RefRun(prog, s, 1).pc == Wrap(s.pc + 4)
    ensures RefRun(prog, s, 2).pc == ControlTarget(s.pc, prog(s.pc), Operands(prog(s.pc), s.regs))
  {
    hide RefStep, Wrap, Results, WriteRegs;
    assert RefRun(prog, s, 1) == RefStep(prog, RefRun(prog, s, 0));
    assert RefRun(prog, s, 2) == RefStep(prog, RefRun(prog, s, 1));
    ControlStep(prog, s);
    SlotStep(prog, RefStep(prog, s));
  }

  /** What the core needs of the next instruction to follow the interpreter. Exactness gives the condition behind each
      clause; the first is the architecture's own rule. */
  predicate Supported(prog: Prog, s: Arch)
    requires WfProg(|s.regs|, prog)
  {
    var inst := prog(s.pc);
    var vals := Operands(inst, s.regs);
    && (IsControl(inst) ==> s.pend.None?)
    && (IsControl(inst) && ExecutesSlot(inst, vals) ==> Wrap(s.pc + 4) != 0)
    && (inst.RType? && inst.rd == 0 ==> inst.g(vals) == s.regs[0])
    && (inst.Store? ==> StoreFits(EffAddr(inst, vals), StoreWidth(inst.sk)))
    && (inst.Jump? && inst.jk.Jalr? ==> vals[0] != Wrap(s.pc + 4))
  }
}
