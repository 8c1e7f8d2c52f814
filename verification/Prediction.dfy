/** Where the fetch stage goes, as far as the predictors leave it open, and what it learns from retired jumps. */
module Prediction {
  import opened Isa
  import opened LoadStore
  import opened Core
  import opened Renaming
  import opened Dataflow
  import opened Reachability

  /** What one fetch outside a delay slot appends. */
  function NextFetched(sys: Sys, c: State, take: bool, ret: Word): Fetched {
    Fetch(sys, c, take, ret).fq[|c.fq|]
  }

  /** A branch that has never retired is fetched as taken if its opcode says likely, or says not likely and its target
      lies behind it. */
  lemma UnseenBranch(sys: Sys, c: State, take: bool, ret: Word)
    requires c.slotPc == 0 && sys.prog(c.fetchPc).Branch? && c.fetchPc !in c.targets
    requires 0 <= c.fetchPc + 4 + 4 * sys.prog(c.fetchPc).imm < 0x1_0000_0000
    ensures var inst := sys.prog(c.fetchPc); var e := NextFetched(sys, c, take, ret);
            && (e.taken <==> inst.hint.LikelyOpcode? || (inst.hint.NonLikelyOpcode? && inst.imm < -1))
            && e.npc == if e.taken then c.fetchPc + 4 + 4 * inst.imm else Wrap(c.fetchPc + 4)
  {
    BranchTargetExact(c.fetchPc, sys.prog(c.fetchPc));
  }

  /** A branch or jalr that has retired is fetched as the predictor answers: to its recorded target, or straight on. */
  lemma SeenBranch(sys: Sys, c: State, take: bool, ret: Word)
    requires c.slotPc == 0 && c.fetchPc in c.targets
    requires var inst := sys.prog(c.fetchPc); inst.Branch? || (inst.Jump? && inst.jk.Jalr?)
    ensures var e := NextFetched(sys, c, take, ret);
            e.taken == take && e.npc == if take then c.targets[c.fetchPc] else Wrap(c.fetchPc + 4)
  {
  }

  /** jr goes where the return stack says. */
  lemma ReturnFetched(sys: Sys, c: State, take: bool, ret: Word)
    requires c.slotPc == 0 && sys.prog(c.fetchPc).Jump? && sys.prog(c.fetchPc).jk.Jr?
    ensures NextFetched(sys, c, take, ret).npc == ret
  {
  }

  /** j and jal are fetched at their target, so they are never mispredicted. */
  lemma DirectJumpFetched(sys: Sys, c: State, take: bool, ret: Word, vals: seq<Word>)
    requires c.slotPc == 0 && sys.prog(c.fetchPc).Jump? && |vals| == |sys.prog(c.fetchPc).srcs|
    requires sys.prog(c.fetchPc).jk.J? || sys.prog(c.fetchPc).jk.Jal?
    ensures NextFetched(sys, c, take, ret).npc == ControlTarget(c.fetchPc, sys.prog(c.fetchPc), vals)
  {
  }

  /** Everything else goes straight on: what is neither branch nor jump, and a jalr that has never retired. */
  lemma StraightOn(sys: Sys, c: State, take: bool, ret: Word)
    requires c.slotPc == 0 && c.fetchPc !in c.targets
    requires var inst := sys.prog(c.fetchPc); !IsControl(inst) || (inst.Jump? && inst.jk.Jalr?)
    ensures var e := NextFetched(sys, c, take, ret); !e.taken && e.npc == Wrap(c.fetchPc + 4)
  {
  }

  /** What is fetched next is the slot behind a branch or jump that left the straight path, and then its target; the
      slot itself always counts as not taken. */
  lemma SlotThenTarget(sys: Sys, c: State, take: bool, ret: Word, take2: bool, ret2: Word)
    requires c.slotPc == 0
    ensures var e := NextFetched(sys, c, take, ret); var d := Fetch(sys, c, take, ret);
            var leaves := e.taken || (sys.prog(c.fetchPc).Jump? && sys.prog(c.fetchPc).jk.Jr?);
            && d.fq == c.fq + [e] && d.fetchPc == e.npc && e.pc == c.fetchPc
            && (!leaves ==> d.slotPc == 0)
            && (leaves && Wrap(c.fetchPc + 4) != 0 ==>
                  var slot := NextFetched(sys, d, take2, ret2);
                  && slot.pc == Wrap(c.fetchPc + 4) && !slot.taken && slot.npc == Wrap(slot.pc + 4)
                  && Fetch(sys, d, take2, ret2).fetchPc == e.npc && Fetch(sys, d, take2, ret2).slotPc == 0)
  {
    hide BranchTarget, JumpTarget, Wrap;
  }

  /** A retiring jump leaves the target it computed, by which it is fetched next time. */
  lemma JumpLearned(sys: Sys, c: State)
    requires sys.Wf() && Structured(sys, c) && Shape(sys, c)
    requires |c.rob| > 0 && c.rob[0].stage == Complete && c.rob[0].inst.Jump?
    ensures WfInst(|c.rat|, c.rob[0].inst)
    ensures var op := c.rob[0]; var d := RetireHead(sys, c);
            op.pc in d.targets && d.targets[op.pc] == ControlTarget(op.pc, op.inst, ReadSrcs(c.prf, op.srcs))
  {
    hide RenameInv, TableOk, Aged, SrcsOk, RetiredOk, WfInst, ControlTarget, Remaining;
    var own, rats :| DataInv(false, sys, c, own, rats);
    assert OpOk(false, |c.rat|, c.prf, c.valid, c.mem, c.rob[0]);
  }

  /** A retiring branch leaves its target, taken or not; other instructions leave nothing, and no other record moves. */
  lemma TargetsLearned(sys: Sys, c: State, pc: Word)
    requires sys.Wf() && Shape(sys, c) && |c.rob| > 0 && c.rob[0].stage == Complete
    ensures var op := c.rob[0]; var d := RetireHead(sys, c);
            && (pc in d.targets <==> pc in c.targets || (pc == op.pc && IsControl(op.inst)))
            && (pc in c.targets && (pc != op.pc || !IsControl(op.inst)) ==> d.targets[pc] == c.targets[pc])
            && (op.inst.Branch? && 0 <= op.pc + 4 + 4 * op.inst.imm < 0x1_0000_0000
                ==> d.targets[op.pc] - (op.pc + 4) == 4 * op.inst.imm)
  {
    hide Shape, Remaining, WfProg;
    if c.rob[0].inst.Branch? {
      BranchTargetExact(c.rob[0].pc, c.rob[0].inst);
    }
  }

  /** So a jalr that has retired and is fetched again, predicted taken, goes where it went last. */
  lemma JalrFollowsLast(sys: Sys, c: State, d: State, ret: Word)
    requires sys.Wf() && Structured(sys, c) && Shape(sys, c)
    requires |c.rob| > 0 && c.rob[0].stage == Complete && c.rob[0].inst.Jump? && c.rob[0].inst.jk.Jalr?
    requires d == RetireHead(sys, c).(fetchPc := c.rob[0].pc, slotPc := 0)
    ensures WfInst(|c.rat|, c.rob[0].inst)
    ensures var op := c.rob[0];
            NextFetched(sys, d, true, ret).npc == ControlTarget(op.pc, op.inst, ReadSrcs(c.prf, op.srcs))
  {
    hide RetireHead, ControlTarget, WfInst, Structured, NextFetched;
    JumpLearned(sys, c);
    assert sys.prog(c.rob[0].pc) == c.rob[0].inst by { assert OpShape(sys, c, c.rob[0]); }
    SeenBranch(sys, d, true, ret);
  }
}
