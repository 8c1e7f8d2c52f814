/** What every step keeps about the values in physical registers and about loads in flight. */
module Dataflow {
  import opened Isa
  import opened Core
  import opened Renaming

  ghost function DestLog(rob: seq<Op>): (r: seq<seq<Dest>>)
    ensures |r| == |rob|
  {
    seq(|rob|, i requires 0 <= i < |rob| => rob[i].dests)
  }

  /** The renaming tables of a machine state. */
  ghost function View(c: State): Tables {
    Tables(c.rat, c.ratR, c.used, c.usedR, DestLog(c.rob), c.HeadId())
  }

  // ----- one op -----------------------------------------------------------------------------------

  ghost predicate DestsHold(prf: seq<Word>, ds: seq<Dest>, vs: seq<Word>) {
    |ds| == |vs| && forall j :: 0 <= j < |ds| ==> ds[j].prf < |prf| && prf[ds[j].prf] == vs[j]
  }

  ghost predicate OpWf(nArch: nat, nPhys: nat, op: Op) {
    && WfInst(nArch, op.inst)
    && |op.srcs| == |op.inst.srcs| && (forall k :: 0 <= k < |op.srcs| ==> op.srcs[k] < nPhys)
    && |op.dests| == |Dests(op.inst)| && DestsIn(nArch, nPhys, op.dests)
    && (op.stage != Waiting && (op.inst.Load? || op.inst.Store?) ==> |op.vals| == |op.inst.srcs|)
  }

  /** An issued op has latched, and a finished op has delivered, what its source registers now hold;
      as long as every retired store kept to one block (fit), a finished load that is not flagged has delivered what
      memory now holds. */
  ghost predicate Executed(fit: bool, nArch: nat, prf: seq<Word>, mem: Mem, op: Op)
    requires OpWf(nArch, |prf|, op) && op.stage != Waiting
  {
    var vals := ReadSrcs(prf, op.srcs);
    match op.inst
    case Load(k, _, _, _) =>
      && op.ea == EffAddr(op.inst, vals) && op.vals == vals
      && (LoadAligned(k, op.ea) || op.loadExc)
      && (fit && op.stage == Complete && !op.loadExc ==>
            DestsHold(prf, op.dests, LoadValues(k, mem, op.ea, vals[|vals| - 1])))
    case Store(_, _, _) => op.ea == EffAddr(op.inst, vals) && op.vals == vals
    case Branch(_, cond, _, likely, _) =>
      && op.hasDelay == ExecutesSlot(op.inst, vals)
      && op.correctPc == ControlTarget(op.pc, op.inst, vals)
      && (op.brExc <==> op.taken != cond(vals) || (!cond(vals) && likely && op.npc != Wrap(op.pc + 8)))
    case Jump(_, _, _, _) =>
      && op.correctPc == ControlTarget(op.pc, op.inst, vals)
      && (op.brExc <==> op.npc != op.correctPc)
      && DestsHold(prf, op.dests, Results(op.pc, op.inst, vals, mem))
    case _ => DestsHold(prf, op.dests, Results(op.pc, op.inst, vals, mem))
  }

  /** Only loads can carry a load exception, only branches and jumps a branch exception or a delay slot. */
  ghost predicate Flags(op: Op) {
    && (op.loadExc ==> op.inst.Load?)
    && (op.brExc ==> IsControl(op.inst) && op.stage != Waiting)
    && (op.hasDelay ==> IsControl(op.inst))
    && (op.inst.Jump? ==> op.hasDelay)
  }

  ghost predicate ReadyIn(valid: seq<bool>, op: Op) {
    forall k :: 0 <= k < |op.srcs| ==> op.srcs[k] < |valid| && valid[op.srcs[k]]
  }

  /** Destinations are valid once the op has finished, and not before; a flagged load may never deliver. */
  ghost predicate DestsValid(valid: seq<bool>, op: Op) {
    forall j :: 0 <= j < |op.dests| ==>
      && op.dests[j].prf < |valid|
      && (valid[op.dests[j].prf] ==> op.stage == Complete)
      && (op.stage == Complete && !op.loadExc ==> valid[op.dests[j].prf])
  }

  ghost predicate OpOk(fit: bool, nArch: nat, prf: seq<Word>, valid: seq<bool>, mem: Mem, op: Op) {
    && OpWf(nArch, |prf|, op) && Flags(op) && DestsValid(valid, op)
    && (op.stage != Waiting ==> ReadyIn(valid, op) && Executed(fit, nArch, prf, mem, op))
  }

  /** An op does not notice a change to registers it neither reads nor writes, nor to validity elsewhere. */
  lemma OpFrame(fit: bool, nArch: nat, prf: seq<Word>, prf': seq<Word>, valid: seq<bool>, valid': seq<bool>,
      mem: Mem, op: Op)
    requires OpOk(fit, nArch, prf, valid, mem, op)
    requires |prf'| == |prf| && |valid'| == |valid|
    requires op.stage != Waiting ==>
               forall k :: 0 <= k < |op.srcs| ==> prf'[op.srcs[k]] == prf[op.srcs[k]] && valid'[op.srcs[k]]
    requires forall j :: 0 <= j < |op.dests| ==>
               prf'[op.dests[j].prf] == prf[op.dests[j].prf] && valid'[op.dests[j].prf] == valid[op.dests[j].prf]
    ensures OpOk(fit, nArch, prf', valid', mem, op)
  {
    if op.stage != Waiting {
      assert ReadSrcs(prf', op.srcs) == ReadSrcs(prf, op.srcs);
    }
  }

  // ----- the whole machine --------------------------------------------------------------------------

  /** Sources were looked up in the snapshot the op was renamed against. */
  ghost predicate SrcsFrom(rat: seq<nat>, op: Op) {
    && |op.srcs| == |op.inst.srcs|
    && forall k :: 0 <= k < |op.srcs| ==> op.inst.srcs[k] < |rat| && op.srcs[k] == rat[op.inst.srcs[k]]
  }

  ghost predicate SrcsOk(rob: seq<Op>, rats: seq<seq<nat>>) {
    |rats| > |rob| && forall i :: 0 <= i < |rob| ==> SrcsFrom(rats[i], rob[i])
  }

  ghost predicate OpsOk(fit: bool, c: State) {
    forall i :: 0 <= i < |c.rob| ==> OpOk(fit, |c.rat|, c.prf, c.valid, c.mem, c.rob[i])
  }

  /** Every retired mapping is valid and holds the architectural value. */
  ghost predicate RetiredOk(c: State) {
    && |c.ratR| == |c.arch| && |c.valid| == |c.prf|
    && forall a :: 0 <= a < |c.ratR| ==>
         c.ratR[a] < |c.prf| && c.valid[c.ratR[a]] && c.prf[c.ratR[a]] == c.arch[a]
  }

  ghost predicate ValidUsed(c: State) {
    |c.valid| == |c.used| && forall p :: 0 <= p < |c.valid| && c.valid[p] ==> c.used[p]
  }

  ghost predicate SlotOk(rob: seq<Op>, head: int, s: nat, id: int) {
    id == -1 || (0 <= id - head < |rob| && rob[id - head].inst.Load? && rob[id - head].ldSlot == s)
  }

  ghost predicate LoadListed(op: Op, id: int, tbl: seq<int>) {
    op.inst.Load? ==> 0 <= op.ldSlot < |tbl| && tbl[op.ldSlot] == id
  }

  /** The load table lists exactly the loads in flight. */
  ghost predicate TableOk(tbl: seq<int>, rob: seq<Op>, head: int) {
    && head >= 0
    && (forall s :: 0 <= s < |tbl| ==> SlotOk(rob, head, s, tbl[s]))
    && (forall i :: 0 <= i < |rob| ==> LoadListed(rob[i], head + i, tbl))
  }

  /** Allocation cycles never decrease along the reorder buffer. */
  ghost predicate Aged(rob: seq<Op>, cycle: nat) {
    && (forall i :: 0 <= i < |rob| ==> rob[i].alloc <= cycle)
    && (forall i, k :: 0 <= i < k < |rob| ==> rob[i].alloc <= rob[k].alloc)
  }

  ghost predicate DataInv(fit: bool, sys: Sys, c: State, own: seq<Owner>, rats: seq<seq<nat>>) {
    && Shape(sys, c)
    && RenameInv(sys, View(c), own, rats) && SrcsOk(c.rob, rats)
    && OpsOk(fit, c) && RetiredOk(c) && ValidUsed(c) && TableOk(c.ldTbl, c.rob, c.HeadId()) && Aged(c.rob, c.cycle)
  }

  // ----- who owns what --------------------------------------------------------------------------------

  /** Sources are in use, and are not destinations of the same op or of a younger one. */
  lemma SourceOwner(t: Tables, rob: seq<Op>, own: seq<Owner>, rats: seq<seq<nat>>, i: nat, k: nat)
    requires Entries(t, own, rats) && SrcsOk(rob, rats) && i < |rob| && k < |rob[i].srcs|
    requires |rats[i]| == |t.rat|
    ensures var p := rob[i].srcs[k];
            p < |own| && !own[p].Free? && (own[p].InFlight? ==> own[p].id < t.head + i)
  {
    var a := rob[i].inst.srcs[k];
    assert SrcsFrom(rats[i], rob[i]);
    assert EntryOk(t, own, i, a, rats[i][a]);
  }

  lemma DestOwner(t: Tables, own: seq<Owner>, i: nat, j: nat)
    requires Owned(t, own) && i < |t.log| && j < |t.log[i]|
    ensures var p := t.log[i][j].prf; p < |own| && own[p] == InFlight(t.head + i, j)
  {
    assert DestsOwned(t.log[i], t.head + i, own);
  }

  /** A register owned by someone else is not a destination of op i. */
  lemma NotNew(t: Tables, own: seq<Owner>, i: nat, p: nat)
    requires Owned(t, own) && i < |t.log| && p < |own| && |t.log[i]| <= 2
    requires own[p].InFlight? ==> own[p].id != t.head + i
    ensures !IsNew(t.log[i], p)
  {
    if |t.log[i]| > 0 { DestOwner(t, own, i, 0); }
    if |t.log[i]| > 1 { DestOwner(t, own, i, 1); }
  }

  /** Op k neither reads nor writes the destinations of another op i, if k is issued or older. */
  lemma OpsApart(t: Tables, rob: seq<Op>, own: seq<Owner>, i: nat, k: nat)
    requires t.log == DestLog(rob) && Owned(t, own) && i < |rob| && k < |rob| && i != k && |rob[i].dests| <= 2
    ensures forall j :: 0 <= j < |rob[k].dests| ==> !IsNew(rob[i].dests, rob[k].dests[j].prf)
  {
    forall j | 0 <= j < |rob[k].dests|
      ensures !IsNew(rob[i].dests, rob[k].dests[j].prf)
    {
      DestOwner(t, own, k, j);
      NotNew(t, own, i, rob[k].dests[j].prf);
    }
  }

  lemma ViewSame(c: State, d: State)
    requires c.rat == d.rat && c.ratR == d.ratR && c.used == d.used && c.usedR == d.usedR && c.nextId == d.nextId
    requires |c.rob| == |d.rob| && forall i :: 0 <= i < |c.rob| ==> c.rob[i].dests == d.rob[i].dests
    ensures View(c) == View(d)
  {
    assert DestLog(c.rob) == DestLog(d.rob);
  }

  // ----- execute and complete: op i writes its own destinations -----------------------------------------

  /** d differs from c only in op i and in the values and validity of its destinations, not valid before. */
  ghost predicate WritesOnly(c: State, d: State, i: nat) {
    && i < |c.rob| && |d.rob| == |c.rob| && |d.prf| == |c.prf| && |d.valid| == |c.valid|
    && d == c.(rob := d.rob, prf := d.prf, valid := d.valid)
    && (forall k :: 0 <= k < |c.rob| && k != i ==> d.rob[k] == c.rob[k])
    && (forall p :: 0 <= p < |c.prf| && !IsNew(c.rob[i].dests, p) && p < |c.valid| ==>
          d.prf[p] == c.prf[p] && d.valid[p] == c.valid[p])
    && d.rob[i] == c.rob[i].(stage := d.rob[i].stage, ea := d.rob[i].ea, vals := d.rob[i].vals,
                             loadExc := d.rob[i].loadExc, brExc := d.rob[i].brExc,
                             hasDelay := d.rob[i].hasDelay, correctPc := d.rob[i].correctPc)
    && c.rob[i].stage != Complete
  }

  /** An op with a not-yet-valid destination as source is still waiting. */
  lemma OtherOpKeeps(fit: bool, c: State, d: State, own: seq<Owner>, i: nat, k: nat)
    requires OpsOk(fit, c) && Owned(View(c), own) && WritesOnly(c, d, i) && |c.valid| == |c.prf|
    requires k < |c.rob| && k != i
    ensures OpOk(fit, |d.rat|, d.prf, d.valid, d.mem, d.rob[k])
  {
    var op := c.rob[k];
    assert OpOk(fit, |c.rat|, c.prf, c.valid, c.mem, op);
    assert OpOk(fit, |c.rat|, c.prf, c.valid, c.mem, c.rob[i]);
    OpsApart(View(c), c.rob, own, i, k);
    OpFrame(fit, |c.rat|, c.prf, d.prf, c.valid, d.valid, c.mem, op);
  }

  lemma RetiredKeeps(c: State, d: State, own: seq<Owner>, i: nat)
    requires RetiredOk(c) && Owned(View(c), own) && WritesOnly(c, d, i) && |c.rob[i].dests| <= 2
    ensures RetiredOk(d)
  {
    forall a | 0 <= a < |d.ratR|
      ensures d.prf[d.ratR[a]] == c.prf[c.ratR[a]] && d.valid[d.ratR[a]]
    {
      NotNew(View(c), own, i, c.ratR[a]);
    }
  }

  lemma ValidKeeps(c: State, d: State, own: seq<Owner>, i: nat)
    requires ValidUsed(c) && Owned(View(c), own) && BitsOwned(View(c), own) && WritesOnly(c, d, i)
    requires |c.rob[i].dests| <= 2 && |c.prf| == |c.valid|
    ensures ValidUsed(d)
  {
    if |c.rob[i].dests| > 0 { DestOwner(View(c), own, i, 0); }
    if |c.rob[i].dests| > 1 { DestOwner(View(c), own, i, 1); }
  }

  lemma TableSame(tbl: seq<int>, rob: seq<Op>, rob': seq<Op>, head: int)
    requires TableOk(tbl, rob, head) && |rob| == |rob'|
    requires forall k :: 0 <= k < |rob| ==> rob[k].inst == rob'[k].inst && rob[k].ldSlot == rob'[k].ldSlot
    ensures TableOk(tbl, rob', head)
  {
    forall s | 0 <= s < |tbl|
      ensures SlotOk(rob', head, s, tbl[s])
    {
      assert SlotOk(rob, head, s, tbl[s]);
    }
    forall i | 0 <= i < |rob'|
      ensures LoadListed(rob'[i], head + i, tbl)
    {
      assert LoadListed(rob[i], head + i, tbl);
    }
  }

  lemma RenamingOwned(sys: Sys, t: Tables, own: seq<Owner>, rats: seq<seq<nat>>)
    requires RenameInv(sys, t, own, rats)
    ensures Owned(t, own) && BitsOwned(t, own)
  {
  }

  lemma WritesOnlyKeeps(fit: bool, sys: Sys, c: State, d: State, i: nat, own: seq<Owner>, rats: seq<seq<nat>>)
    requires DataInv(fit, sys, c, own, rats) && WritesOnly(c, d, i)
    requires OpOk(fit, |d.rat|, d.prf, d.valid, d.mem, d.rob[i])
    ensures DataInv(fit, sys, d, own, rats)
  {
    hide RenameInv, TableOk, Executed, ReadyIn, WfInst;
    ViewSame(c, d);
    RenamingOwned(sys, View(c), own, rats);
    assert OpOk(fit, |c.rat|, c.prf, c.valid, c.mem, c.rob[i]);
    RetiredKeeps(c, d, own, i);
    ValidKeeps(c, d, own, i);
    TableSame(c.ldTbl, c.rob, d.rob, c.HeadId());
    forall k | 0 <= k < |d.rob|
      ensures OpOk(fit, |d.rat|, d.prf, d.valid, d.mem, d.rob[k]) && OpShape(sys, d, d.rob[k])
          && SrcsFrom(rats[k], d.rob[k])
    {
      assert OpShape(sys, c, c.rob[k]) && SrcsFrom(rats[k], c.rob[k]);
      if k != i {
        OtherOpKeeps(fit, c, d, own, i, k);
      }
    }
  }

  lemma ExecutedOp(fit: bool, nArch: nat, prf: seq<Word>, valid: seq<bool>, mem: Mem, op: Op)
    requires OpOk(fit, nArch, prf, valid, mem, op) && op.stage == Waiting && ReadyIn(valid, op)
    requires |op.dests| == 2 ==> op.dests[0].prf != op.dests[1].prf
    ensures var vals := ReadSrcs(prf, op.srcs);
            var prf' := if op.inst.Load? then prf else WritePrf(prf, op.dests, Results(op.pc, op.inst, vals, mem));
            OpOk(fit, nArch, prf', valid, mem, ExecOp(nArch, op, vals))
  {
    hide LoadValues, EffAddr, ControlTarget, ExecutesSlot, LoadAligned, Wrap;
    var vals := ReadSrcs(prf, op.srcs);
    var prf' := if op.inst.Load? then prf else WritePrf(prf, op.dests, Results(op.pc, op.inst, vals, mem));
    forall k | 0 <= k < |op.srcs|
      ensures !IsNew(op.dests, op.srcs[k])
    {
    }
    assert ReadSrcs(prf', op.srcs) == vals;
  }

  lemma DestPrfsApart(c: State, own: seq<Owner>, i: nat)
    requires Owned(View(c), own) && i < |c.rob|
    ensures |c.rob[i].dests| == 2 ==> c.rob[i].dests[0].prf != c.rob[i].dests[1].prf
  {
    if |c.rob[i].dests| == 2 {
      DestOwner(View(c), own, i, 0);
      DestOwner(View(c), own, i, 1);
    }
  }

  lemma CompletedOp(fit: bool, nArch: nat, prf: seq<Word>, valid: seq<bool>, mem: Mem, op: Op)
    requires OpOk(fit, nArch, prf, valid, mem, op) && op.stage == Issued && |valid| == |prf|
    requires |op.dests| == 2 ==> op.dests[0].prf != op.dests[1].prf
    ensures var done := op.(stage := Complete);
            if op.inst.Load? && op.loadExc then OpOk(fit, nArch, prf, valid, mem, done)
            else
              var prf' := if !op.inst.Load? then prf
                       else WritePrf(prf, op.dests, LoadValues(op.inst.lk, mem, op.ea, op.vals[|op.vals| - 1]));
              OpOk(fit, nArch, prf', MarkNew(valid, op.dests, true), mem, done)
  {
    hide LoadValues, EffAddr, ControlTarget, ExecutesSlot, LoadAligned, Results, Wrap;
    var prf' := if !op.inst.Load? then prf
                else WritePrf(prf, op.dests, LoadValues(op.inst.lk, mem, op.ea, op.vals[|op.vals| - 1]));
    forall k | 0 <= k < |op.srcs|
      ensures !IsNew(op.dests, op.srcs[k])
    {
    }
    assert ReadSrcs(prf', op.srcs) == ReadSrcs(prf, op.srcs);
  }

  lemma ExecuteWrites(sys: Sys, c: State, i: nat)
    requires sys.Wf() && Shape(sys, c) && i < |c.rob| && c.rob[i].stage == Waiting && |c.valid| == |c.prf|
    requires OpWf(|c.rat|, |c.prf|, c.rob[i]) && DestsValid(c.valid, c.rob[i])
    ensures WritesOnly(c, Execute(sys, c, i), i)
  {
    hide WfProg, LoadValues, Results, EffAddr, ControlTarget, ExecutesSlot, LoadAligned, WfInst;
  }

  lemma CompleteWrites(sys: Sys, c: State, i: nat)
    requires sys.Wf() && Shape(sys, c) && i < |c.rob| && c.rob[i].stage == Issued && |c.valid| == |c.prf|
    requires OpWf(|c.rat|, |c.prf|, c.rob[i]) && DestsValid(c.valid, c.rob[i])
    ensures WritesOnly(c, CompleteOp(sys, c, i), i)
  {
    hide WfProg, LoadValues, WfInst;
  }

  lemma ExecuteKeeps(fit: bool, sys: Sys, c: State, i: nat, own: seq<Owner>, rats: seq<seq<nat>>)
    requires sys.Wf() && DataInv(fit, sys, c, own, rats)
    requires i < |c.rob| && c.rob[i].stage == Waiting && Ready(c, c.rob[i])
    ensures DataInv(fit, sys, Execute(sys, c, i), own, rats)
  {
    hide RenameInv, TableOk, Executed, WfInst, WfProg, Owned, LoadValues, Results, WritesOnly, OpWf;
    RenamingOwned(sys, View(c), own, rats);
    DestPrfsApart(c, own, i);
    assert OpOk(fit, |c.rat|, c.prf, c.valid, c.mem, c.rob[i]);
    ExecutedOp(fit, |c.rat|, c.prf, c.valid, c.mem, c.rob[i]);
    ExecuteWrites(sys, c, i);
    WritesOnlyKeeps(fit, sys, c, Execute(sys, c, i), i, own, rats);
  }

  lemma CompleteKeeps(fit: bool, sys: Sys, c: State, i: nat, own: seq<Owner>, rats: seq<seq<nat>>)
    requires sys.Wf() && DataInv(fit, sys, c, own, rats)
    requires i < |c.rob| && c.rob[i].stage == Issued
    ensures DataInv(fit, sys, CompleteOp(sys, c, i), own, rats)
  {
    hide RenameInv, TableOk, Executed, WfInst, WfProg, Owned, LoadValues, WritesOnly, OpWf;
    RenamingOwned(sys, View(c), own, rats);
    DestPrfsApart(c, own, i);
    assert OpOk(fit, |c.rat|, c.prf, c.valid, c.mem, c.rob[i]);
    CompletedOp(fit, |c.rat|, c.prf, c.valid, c.mem, c.rob[i]);
    CompleteWrites(sys, c, i);
    WritesOnlyKeeps(fit, sys, c, CompleteOp(sys, c, i), i, own, rats);
  }
}
