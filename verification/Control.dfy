/** The fetch path: every entry of the reorder buffer and fetch queue was fetched where its predecessor left off. */
module Control {
  import opened Isa
  import opened Core

  function AsFetched(op: Op): Fetched {
    Fetched(op.pc, op.inst, op.npc, op.taken)
  }

  /** Everything fetched and not retired, oldest first. */
  function Stream(rob: seq<Op>, fq: seq<Fetched>): (r: seq<Fetched>)
    ensures |r| == |rob| + |fq|
  {
    seq(|rob|, i requires 0 <= i < |rob| => AsFetched(rob[i])) + fq
  }

  /** Fetching entry e took the engine from w to w'. */
  ghost predicate Link(prog: Prog, w: Walker, e: Fetched, w': Walker) {
    && e.inst == prog(e.pc)
    && if w.slot != 0 then
         e.pc == w.slot && e.npc == Wrap(e.pc + 4) && !e.taken && w' == Walker(w.pc, 0)
       else
         && e.pc == w.pc && w'.pc == e.npc
         && match e.inst
            case Jump(Jr, _, _, _) => w'.slot == Wrap(e.pc + 4)
            case Jump(Jalr, _, _, _) =>
              if e.taken then w'.slot == Wrap(e.pc + 4) else e.npc == Wrap(e.pc + 4) && w'.slot == 0
            case Jump(_, _, _, _) => e.npc == JumpTarget(e.pc, e.inst) && w'.slot == Wrap(e.pc + 4)
            case Branch(_, _, _, _, _) =>
              if e.taken then e.npc == BranchTarget(e.pc, e.inst) && w'.slot == Wrap(e.pc + 4)
              else e.npc == Wrap(e.pc + 4) && w'.slot == 0
            case _ => e.npc == Wrap(e.pc + 4) && w'.slot == 0
  }

  ghost predicate Path(prog: Prog, stream: seq<Fetched>, walks: seq<Walker>) {
    && |walks| == |stream| + 1
    && forall i :: 0 <= i < |stream| ==> Link(prog, walks[i], stream[i], walks[i + 1])
  }

  /** Recorded targets belong to branches and jumps, and a branch's is its own. */
  ghost predicate TargetsOk(prog: Prog, targets: map<Word, Word>) {
    forall pc :: pc in targets ==>
      IsControl(prog(pc)) && (prog(pc).Branch? ==> targets[pc] == BranchTarget(pc, prog(pc)))
  }

  ghost predicate PathInv(sys: Sys, c: State, walks: seq<Walker>) {
    && Path(sys.prog, Stream(c.rob, c.fq), walks)
    && walks[|walks| - 1] == Walker(c.fetchPc, c.slotPc)
    && TargetsOk(sys.prog, c.targets)
  }

  /** One fetch, whatever the predictor and the return stack answer, extends the path by one link. */
  lemma FetchKeeps(sys: Sys, c: State, take: bool, ret: Word, walks: seq<Walker>)
    requires PathInv(sys, c, walks)
    ensures var d := Fetch(sys, c, take, ret); PathInv(sys, d, walks + [Walker(d.fetchPc, d.slotPc)])
  {
    var d := Fetch(sys, c, take, ret);
    var w := Walker(c.fetchPc, c.slotPc);
    var w' := Walker(d.fetchPc, d.slotPc);
    var e := d.fq[|c.fq|];
    assert Link(sys.prog, w, e, w');
    assert Stream(d.rob, d.fq) == Stream(c.rob, c.fq) + [e];
    PathAppend(sys.prog, Stream(c.rob, c.fq), walks, e, w');
  }

  lemma PathAppend(prog: Prog, stream: seq<Fetched>, walks: seq<Walker>, e: Fetched, w: Walker)
    requires Path(prog, stream, walks) && Link(prog, walks[|stream|], e, w)
    ensures Path(prog, stream + [e], walks + [w])
  {
    var s' := stream + [e];
    var ws := walks + [w];
    forall i | 0 <= i < |s'|
      ensures Link(prog, ws[i], s'[i], ws[i + 1])
    {
      if i < |stream| {
        assert Link(prog, walks[i], stream[i], walks[i + 1]);
      }
    }
  }

  lemma PathPop(prog: Prog, stream: seq<Fetched>, walks: seq<Walker>)
    requires Path(prog, stream, walks) && |stream| > 0
    ensures Path(prog, stream[1..], walks[1..])
  {
    forall i | 0 <= i < |stream| - 1
      ensures Link(prog, walks[1..][i], stream[1..][i], walks[1..][i + 1])
    {
      assert Link(prog, walks[i + 1], stream[i + 1], walks[i + 1 + 1]);
    }
  }

  lemma AllocateStream(sys: Sys, c: State)
    requires sys.Wf() && Shape(sys, c) && CanAllocate(sys, c)
    ensures var d := Allocate(sys, c); Stream(d.rob, d.fq) == Stream(c.rob, c.fq)
  {
    hide Sys.Wf, Shape, AllocDests;
    var d := Allocate(sys, c);
    assert AsFetched(d.rob[|c.rob|]) == c.fq[0];
  }

  lemma SameStream(rob: seq<Op>, rob': seq<Op>, fq: seq<Fetched>)
    requires |rob| == |rob'| && forall i :: 0 <= i < |rob| ==> AsFetched(rob[i]) == AsFetched(rob'[i])
    ensures Stream(rob, fq) == Stream(rob', fq)
  {
  }

  lemma RetireStream(sys: Sys, c: State)
    requires sys.Wf() && Shape(sys, c) && |c.rob| > 0 && c.rob[0].stage == Complete
    ensures var d := RetireHead(sys, c); Stream(d.rob, d.fq) == Stream(c.rob, c.fq)[1..]
  {
    hide Sys.Wf, Shape, Remaining;
  }

  lemma RetirePath(sys: Sys, c: State, walks: seq<Walker>)
    requires sys.Wf() && Shape(sys, c) && |c.rob| > 0 && c.rob[0].stage == Complete
    requires PathInv(sys, c, walks)
    ensures PathInv(sys, RetireHead(sys, c), walks[1..])
  {
    var d := RetireHead(sys, c);
    RetireStream(sys, c);
    PathPop(sys.prog, Stream(c.rob, c.fq), walks);
    assert OpShape(sys, c, c.rob[0]);
    assert TargetsOk(sys.prog, d.targets);
  }

  lemma FlushPath(sys: Sys, c: State, pc: Word, walks: seq<Walker>)
    requires PathInv(sys, c, walks)
    ensures PathInv(sys, Flush(c, pc), [Walker(pc, 0)])
  {
  }

  lemma HeadLink(sys: Sys, c: State, walks: seq<Walker>, i: nat)
    requires PathInv(sys, c, walks) && i < |c.rob|
    ensures i + 1 < |walks| && Link(sys.prog, walks[i], AsFetched(c.rob[i]), walks[i + 1])
  {
    assert Stream(c.rob, c.fq)[i] == AsFetched(c.rob[i]);
  }

  // ----- agreement with program order ---------------------------------------------------------------

  /** The oldest unretired fetch is the next instruction in program order, and what follows a delay slot is right. */
  ghost predicate Agree(w: Walker, s: Arch) {
    match s.pend
    case None => w == Walker(s.pc, 0)
    case Some(t) => (w.slot != 0 && w == Walker(t, s.pc)) || (w == Walker(s.pc, 0) && t == Wrap(s.pc + 4))
  }

  /** A retiring instruction without a misprediction leaves the path in agreement with program order. */
  lemma AgreeStep(prog: Prog, s: Arch, w: Walker, op: Op, w': Walker)
    requires WfProg(|s.regs|, prog) && Supported(prog, s)
    requires Agree(w, s) && Link(prog, w, AsFetched(op), w')
    requires !op.brExc
    requires var vals := Operands(prog(s.pc), s.regs);
             match op.inst
             case Branch(_, cond, _, likely, _) =>
               op.brExc <==> op.taken != cond(vals) || (!cond(vals) && likely && op.npc != Wrap(op.pc + 8))
             case Jump(_, _, _, _) => op.brExc <==> op.npc != ControlTarget(op.pc, op.inst, vals)
             case _ => true
    ensures op.pc == s.pc && Agree(w', RefStep(prog, s))
  {
    WrapPlus(s.pc + 4, 4);
    assert Wrap(s.pc + 8) != Wrap(s.pc + 4);
  }

  /** Mispredicted or not, the op behind a branch that executes its delay slot is that slot. */
  lemma SlotFollows(prog: Prog, s: Arch, w0: Walker, u: Op, w1: Walker, uu: Op, w2: Walker)
    requires s.pend.None? && Agree(w0, s) && IsControl(u.inst) && Wrap(s.pc + 4) != 0
    requires Link(prog, w0, AsFetched(u), w1) && Link(prog, w1, AsFetched(uu), w2)
    ensures u.pc == s.pc && uu.pc == Wrap(s.pc + 4)
  {
  }
}
