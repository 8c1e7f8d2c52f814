/** Where the core and the interpreter part ways: each clause of Supported is the exact condition. */
module Exactness {
  import opened Isa
  import opened Core
  import opened Renaming
  import opened Dataflow
  import opened Control
  import opened Refinement
  import opened Reachability

  /** While program order has a delay slot pending, the retire stage retires it and can do nothing else: the slot is
      never nuked apart from its branch. */
  lemma SlotNotSeparated(sys: Sys, c: State, steps: seq<Step>, d: State)
    requires sys.Wf() && Initial(sys, c) && Runs(sys, c, steps, d)
    requires SupportedUpTo(sys, Start(c), |d.retired| + 1)
    requires RefRun(sys.prog, Start(c), |d.retired|).pend.Some?
    ensures Decide(d.rob) == One
  {
    hide Runs, Initial, WfProg, InOrderPcs, Matches, RefRun;
    RunInv(sys, c, steps, d);
    var s := RefRun(sys.prog, Start(c), |d.retired|);
    var x :| Matches(sys, d, s, x);
    SlotNeverNuked(sys, d, s, x);
  }

  /** jalr is not predicted before it has retired once, so it is fetched like straight-line code. Of one accepted
      without a misprediction: the two entries fetched behind it, which retire after it, are the next two instructions
      of program order exactly if it was predicted taken or does not jump to its own delay slot. */
  lemma JalrExact(prog: Prog, s: Arch, op: Op, e1: Fetched, e2: Fetched, w: Walker, w1: Walker, w2: Walker, w3: Walker)
    requires WfProg(|s.regs|, prog) && s.pend.None? && Wrap(s.pc + 4) != 0 && !IsControl(prog(Wrap(s.pc + 4)))
    requires Agree(w, s) && Link(prog, w, AsFetched(op), w1) && Link(prog, w1, e1, w2) && Link(prog, w2, e2, w3)
    requires op.inst.Jump? && op.inst.jk.Jalr?
    requires op.npc == ControlTarget(op.pc, op.inst, Operands(op.inst, s.regs))
    ensures e1.pc == RefRun(prog, s, 1).pc && e2.pc == RefRun(prog, s, 2).pc <==> op.taken || op.npc != Wrap(s.pc + 4)
  {
    hide Link, RefRun, RefStep, ControlTarget, Operands, Wrap, WfProg;
    JalrFetched(prog, s.pc, op, e1, e2, w1, w2, w3);
    NextWords(s.pc);
    AfterSlot(prog, s);
  }

  /** The two pcs fetched behind a jalr. */
  lemma JalrFetched(prog: Prog, pc: Word, op: Op, e1: Fetched, e2: Fetched, w1: Walker, w2: Walker, w3: Walker)
    requires Wrap(pc + 4) != 0 && !IsControl(prog(Wrap(pc + 4))) && op.inst.Jump? && op.inst.jk.Jalr?
    requires Link(prog, Walker(pc, 0), AsFetched(op), w1) && Link(prog, w1, e1, w2) && Link(prog, w2, e2, w3)
    ensures op.pc == pc && op.inst == prog(pc) && e1.pc == Wrap(pc + 4)
    ensures e2.pc == if op.taken then op.npc else Wrap(Wrap(pc + 4) + 4)
    ensures !op.taken ==> op.npc == Wrap(pc + 4)
  {
    hide Wrap;
  }

  lemma NextWords(pc: Word)
    ensures Wrap(pc + 8) != Wrap(pc + 4) && Wrap(Wrap(pc + 4) + 4) == Wrap(pc + 8)
  {
    WrapPlus(pc + 4, 4);
  }

  /** The case the previous lemma excludes, in the machine: behind such a jalr and its delay slot sits the instruction
      after the slot, while program order executes the slot's address a second time. */
  lemma JalrToOwnSlotDiverges(sys: Sys, c: State, s: Arch, x: Aux)
    requires sys.Wf() && Matches(sys, c, s, x) && |s.regs| == |sys.bankA| && s.pend.None? && Wrap(s.pc + 4) != 0
    requires |c.rob| > 2 && c.rob[0].stage == Complete && !c.rob[0].brExc
    requires c.rob[0].inst.Jump? && c.rob[0].inst.jk.Jalr? && !c.rob[0].taken
    requires !IsControl(sys.prog(Wrap(s.pc + 4)))
    ensures c.rob[2].pc == Wrap(s.pc + 8) != RefRun(sys.prog, s, 2).pc == Wrap(s.pc + 4)
  {
    hide DataInv, PathInv, RefRun, RefStep, Wrap;
    HeadFacts(sys, c, s, x);
    HeadLink(sys, c, x.walks, 0);
    HeadLink(sys, c, x.walks, 1);
    HeadLink(sys, c, x.walks, 2);
    assert c.rob[0].npc == ControlTarget(s.pc, c.rob[0].inst, Operands(c.rob[0].inst, s.regs));
    NextWords(s.pc);
    AfterSlot(sys.prog, s);
  }

  /** Zero stands for "no delay slot pending": of a branch or jump that redirected fetch, the two entries fetched behind
      it are its slot and its target, as in program order, exactly if the slot's address is not zero. */
  lemma SlotSentinelExact(prog: Prog, s: Arch, op: Op, e1: Fetched, e2: Fetched,
                          w: Walker, w1: Walker, w2: Walker, w3: Walker)
    requires WfProg(|s.regs|, prog) && s.pend.None? && !IsControl(prog(Wrap(s.pc + 4)))
    requires Agree(w, s) && Link(prog, w, AsFetched(op), w1) && Link(prog, w1, e1, w2) && Link(prog, w2, e2, w3)
    requires IsControl(op.inst) && (op.taken || (op.inst.Jump? && !op.inst.jk.Jalr?))
    requires var vals := Operands(op.inst, s.regs);
             ExecutesSlot(op.inst, vals) && op.npc == ControlTarget(op.pc, op.inst, vals)
    ensures e1.pc == RefRun(prog, s, 1).pc && e2.pc == RefRun(prog, s, 2).pc <==> Wrap(s.pc + 4) != 0
  {
    AfterSlot(prog, s);
    hide RefStep, RefRun, Operands, WfProg;
  }

  /** The core never writes register 0 for an R-type op that names it, the interpreter does: they agree afterwards
      exactly if the value was already there. */
  lemma RegisterZeroExact(sys: Sys, c: State, s: Arch, own: seq<Owner>, rats: seq<seq<nat>>)
    requires sys.Wf() && DataInv(true, sys, c, own, rats) && Linked(c, s) && |s.regs| == |sys.bankA|
    requires |c.rob| > 0 && c.rob[0].stage == Complete && c.rob[0].pc == s.pc
    requires c.rob[0].inst.RType? && c.rob[0].inst.rd == 0
    ensures |s.regs| > 0
    ensures Linked(RetireHead(sys, c), RefStep(sys.prog, s)) <==>
            c.rob[0].inst.g(Operands(c.rob[0].inst, s.regs)) == s.regs[0]
  {
    hide RenameInv, OpsOk, TableOk, SrcsOk;
    assert OpShape(sys, c, c.rob[0]);
    assert RefStep(sys.prog, s).regs[0] == c.rob[0].inst.g(Operands(c.rob[0].inst, s.regs));
  }

  /** The bytes the store at the head writes. */
  ghost function HeadBytes(sys: Sys, c: State): (r: seq<Byte>)
    requires sys.Wf() && Shape(sys, c) && |c.rob| > 0 && c.rob[0].inst.Store? && c.rob[0].stage == Complete
    ensures |r| == StoreWidth(c.rob[0].inst.sk)
  {
    assert OpShape(sys, c, c.rob[0]);
    StoreBytes(c.rob[0].inst.sk, c.rob[0].vals)
  }

  /** The load-violation check misses a store that crosses an 8-byte boundary. If no load has finished in the store's
      own block, one that has read the first byte of the next block is not flagged when the store retires, and what it
      delivered is still what memory holds exactly if the store wrote the byte that was there. */
  lemma CrossingStoreEscapesCheck(sys: Sys, c: State, j: nat)
    requires sys.Wf() && Shape(sys, c) && Structured(sys, c)
    requires 0 < j < |c.rob| && c.rob[0].inst.Store? && c.rob[0].stage == Complete
    requires !StoreFits(c.rob[0].ea, StoreWidth(c.rob[0].inst.sk))
    requires c.rob[j].inst.Load? && c.rob[j].inst.lk.Lbu? && c.rob[j].stage == Complete && !c.rob[j].loadExc
    requires c.rob[j].ea == Wrap(c.rob[0].ea - c.rob[0].ea % 8 + 8)
    requires forall k :: 0 < k < |c.rob| && c.rob[k].inst.Load? && c.rob[k].stage == Complete ==>
                           Block(c.rob[k].ea) != Block(c.rob[0].ea)
    requires DestsHold(c.prf, c.rob[j].dests, LoadValues(Lbu, c.mem, c.rob[j].ea, 0))
    ensures var d := RetireHead(sys, c); var op := d.rob[j - 1]; var k := 8 - c.rob[0].ea % 8;
            && op.alloc == c.rob[j].alloc && op.dests == c.rob[j].dests && !op.loadExc
            && (DestsHold(d.prf, op.dests, LoadValues(Lbu, d.mem, op.ea, 0)) <==>
                HeadBytes(sys, c)[k] == c.mem(c.rob[j].ea))
  {
    hide WfProg, WfInst, LoadAligned, Violation, FlagLoads, ApplyDests, MarkPrev, MarkNew, RetireArch, RenameInv, OpsOk,
      SrcsOk, Aged, WriteBytes, StoreBytes, Block, Wrap;
    var own, rats :| DataInv(false, sys, c, own, rats);
    assert OpShape(sys, c, c.rob[0]) && OpShape(sys, c, c.rob[j]);
    ClearTable(c);
    hide TableOk, LoadValues, DestsHold;
    var op, d := c.rob[j], RetireHead(sys, c);
    CrossedByte(c.mem, c.rob[0].ea, HeadBytes(sys, c), op.ea);
    ByteHeld(c.prf, op.dests, c.mem, d.mem, op.ea);
  }

  /** A write across the boundary puts its byte 8 - ea % 8 at the start of the next block. */
  lemma CrossedByte(mem: Mem, ea: Word, bytes: seq<Byte>, a: Word)
    requires !StoreFits(ea, |bytes|) && a == Wrap(ea - ea % 8 + 8)
    ensures 0 <= 8 - ea % 8 < |bytes| && WriteBytes(mem, ea, bytes)(a) == bytes[8 - ea % 8]
  {
    assert Wrap(a - ea) == 8 - ea % 8;
  }

  /** Registers that hold the byte of one memory hold that of another exactly if the bytes are the same. */
  lemma ByteHeld(prf: seq<Word>, ds: seq<Dest>, m1: Mem, m2: Mem, a: Word)
    requires |ds| == 1 && DestsHold(prf, ds, LoadValues(Lbu, m1, a, 0))
    ensures DestsHold(prf, ds, LoadValues(Lbu, m2, a, 0)) <==> m2(a) == m1(a)
  {
    assert LoadValues(Lbu, m1, a, 0) == [m1(a)] && LoadValues(Lbu, m2, a, 0) == [m2(a)];
    assert prf[ds[0].prf] == LoadValues(Lbu, m1, a, 0)[0];
  }

  lemma ClearTable(c: State)
    requires TableOk(c.ldTbl, c.rob, c.HeadId()) && |c.rob| > 0 && c.rob[0].inst.Store?
    requires forall k :: 0 < k < |c.rob| && c.rob[k].inst.Load? && c.rob[k].stage == Complete ==>
                           Block(c.rob[k].ea) != Block(c.rob[0].ea)
    ensures !Violation(c, c.rob[0])
  {
    forall s | 0 <= s < |c.ldTbl| && c.ldTbl[s] != -1
      ensures !Conflicts(c, c.rob[0], c.ldTbl[s])
    {
      assert SlotOk(c.rob, c.HeadId(), s, c.ldTbl[s]);
    }
  }
}
