/** Operand stability: between its allocation and its retirement an op's source registers are not recycled, and
    once valid they keep their values. */
module OperandsKept {
  import opened Isa
  import opened Core
  import opened Renaming
  import opened Dataflow
  import opened DataSteps
  import opened Refinement
  import opened Reachability

  /** The op with this allocation number is still in the reorder buffer. */
  ghost predicate InFlightAt(c: State, id: int) {
    c.HeadId() <= id < c.nextId
  }

  ghost function OpAt(c: State, id: int): Op
    requires InFlightAt(c, id)
  {
    c.rob[id - c.HeadId()]
  }

  /** The same op at two moments: same operands and destinations, and every source that was valid still is, with
      the same value. */
  ghost predicate SourcesKept(c: State, d: State, id: int) {
    && InFlightAt(c, id) && InFlightAt(d, id)
    && OpAt(d, id).inst == OpAt(c, id).inst && OpAt(d, id).srcs == OpAt(c, id).srcs
        && OpAt(d, id).dests == OpAt(c, id).dests
    && |d.prf| == |c.prf| && |d.valid| == |c.valid|
    && forall k :: 0 <= k < |OpAt(c, id).srcs| ==>
         var p := OpAt(c, id).srcs[k];
         p < |c.valid| && p < |c.prf| && (c.valid[p] ==> d.valid[p] && d.prf[p] == c.prf[p])
  }

  lemma WriteKeepsSources(c: State, d: State, i: nat, id: int)
    requires WritesOnly(c, d, i) && DestsValid(c.valid, c.rob[i]) && InFlightAt(c, id)
    requires |c.valid| == |c.prf|
    requires forall k :: 0 <= k < |OpAt(c, id).srcs| ==> OpAt(c, id).srcs[k] < |c.prf|
    ensures SourcesKept(c, d, id)
  {
    assert OpAt(d, id) == d.rob[id - c.HeadId()];
    forall k | 0 <= k < |OpAt(c, id).srcs| && c.valid[OpAt(c, id).srcs[k]]
      ensures !IsNew(c.rob[i].dests, OpAt(c, id).srcs[k])
    {
    }
  }

  lemma AllocateKeepsSources(sys: Sys, c: State, own: seq<Owner>, rats: seq<seq<nat>>, id: int)
    requires sys.Wf() && Shape(sys, c) && CanAllocate(sys, c) && InFlightAt(c, id)
    requires BitsOwned(View(c), own) && Entries(View(c), own, rats) && SrcsOk(c.rob, rats)
    ensures SourcesKept(c, Allocate(sys, c), id)
  {
    hide WfProg, CanAllocate, Fresh, Push;
    AllocateFresh(sys, c);
    var op := OpAt(c, id);
    assert OpShape(sys, c, op);
    forall k | 0 <= k < |op.srcs|
      ensures !IsNew(AllocDests(sys, c), op.srcs[k])
    {
      SourceOwner(View(c), c.rob, own, rats, id - c.HeadId(), k);
      UsedNotNew(View(c), own, AllocDests(sys, c), op.srcs[k]);
    }
    assert OpAt(Allocate(sys, c), id) == op;
  }

  lemma RetireHeadKeepsSources(sys: Sys, c: State, own: seq<Owner>, rats: seq<seq<nat>>, id: int)
    requires sys.Wf() && Shape(sys, c) && |c.rob| > 0 && c.rob[0].stage == Complete
    requires RenameInv(sys, View(c), own, rats) && SrcsOk(c.rob, rats)
    requires InFlightAt(c, id) && id > c.HeadId()
    ensures SourcesKept(c, RetireHead(sys, c), id)
  {
    hide Shape, WfProg, RetireHead, RenameInv, SrcsOk;
    var i := id - c.HeadId();
    FreedSources(sys, c, own, rats, i);
    RetireHeadFrame(sys, c, i);
    RetireHeadNumbers(sys, c);
    assert OpAt(RetireHead(sys, c), id) == RetireHead(sys, c).rob[i - 1];
  }

  lemma FreedSources(sys: Sys, c: State, own: seq<Owner>, rats: seq<seq<nat>>, i: nat)
    requires sys.Wf() && Shape(sys, c) && 0 < i < |c.rob| && c.rob[0].stage == Complete
    requires RenameInv(sys, View(c), own, rats) && SrcsOk(c.rob, rats)
    ensures forall k :: 0 <= k < |c.rob[i].srcs| ==> !IsPrev(c.rob[0].dests, c.rob[i].srcs[k])
  {
    hide Shape, WfProg, RetireHead, BitsOwned, Entries, Latest, Prevs, Banked, OwnPop;
    RetireRenaming(sys, c, own, rats);
    FreedNotRead(c, own, rats, i);
  }

  lemma RetireHeadFrame(sys: Sys, c: State, i: nat)
    requires sys.Wf() && Shape(sys, c) && 0 < i < |c.rob| && c.rob[0].stage == Complete
    ensures var d := RetireHead(sys, c);
            && d.prf == c.prf && |d.valid| == |c.valid| == |c.prf|
            && (forall p :: 0 <= p < |c.valid| && !IsPrev(c.rob[0].dests, p) ==> d.valid[p] == c.valid[p])
            && |d.rob| == |c.rob| - 1 && d.rob[i - 1] == c.rob[i].(loadExc := d.rob[i - 1].loadExc)
            && forall k :: 0 <= k < |c.rob[i].srcs| ==> c.rob[i].srcs[k] < |c.prf|
  {
    hide WfProg, Remaining;
    assert OpShape(sys, c, c.rob[i]) && OpShape(sys, c, c.rob[0]);
  }

  lemma RenamingOf(sys: Sys, c: State, own: seq<Owner>, rats: seq<seq<nat>>)
    requires DataInv(false, sys, c, own, rats)
    ensures RenameInv(sys, View(c), own, rats) && SrcsOk(c.rob, rats)
    ensures BitsOwned(View(c), own) && Entries(View(c), own, rats)
  {
    hide OpsOk, TableOk, Owned, Latest, Prevs, Chain;
  }

  lemma RetireKeepsSources(sys: Sys, c: State, own: seq<Owner>, rats: seq<seq<nat>>, id: int)
    requires sys.Wf() && DataInv(false, sys, c, own, rats) && Shape(sys, c)
    requires InFlightAt(c, id) && InFlightAt(Retire(sys, c), id)
    ensures SourcesKept(c, Retire(sys, c), id)
  {
    hide DataInv, Shape, WfProg, RetireHead;
    match Decide(c.rob)
    case Stall => SameSources(sys, c, c, own, rats, id);
    case One =>
      RetireHeadNumbers(sys, c);
      RenamingOf(sys, c, own, rats);
      RetireHeadKeepsSources(sys, c, own, rats, id);
    case OneThenFlush(_) => RetireHeadNumbers(sys, c);
    case TwoThenFlush(_) =>
      RetireHeadNumbers(sys, c);
      RetireHeadShape(sys, c);
      RetireHeadNumbers(sys, RetireHead(sys, c));
    case FlushTo(_) =>
  }

  lemma RetireHeadNumbers(sys: Sys, c: State)
    requires sys.Wf() && Shape(sys, c) && |c.rob| > 0 && c.rob[0].stage == Complete
    ensures RetireHead(sys, c).HeadId() == c.HeadId() + 1 && RetireHead(sys, c).nextId == c.nextId
    ensures |c.rob| > 1 ==> RetireHead(sys, c).rob[0].stage == c.rob[1].stage
  {
    hide WfProg, Shape;
  }

  lemma SameSources(sys: Sys, c: State, d: State, own: seq<Owner>, rats: seq<seq<nat>>, id: int)
    requires DataInv(false, sys, c, own, rats) && InFlightAt(c, id)
    requires d.rob == c.rob && d.nextId == c.nextId && d.prf == c.prf && d.valid == c.valid
    ensures SourcesKept(c, d, id)
  {
    hide RenameInv, OpsOk, TableOk;
    assert OpShape(sys, c, OpAt(c, id));
  }

  lemma ExecuteKeepsSources(sys: Sys, c: State, i: nat, own: seq<Owner>, rats: seq<seq<nat>>, id: int)
    requires sys.Wf() && DataInv(false, sys, c, own, rats) && Shape(sys, c) && InFlightAt(c, id)
    requires i < |c.rob| && c.rob[i].stage == Waiting
    ensures SourcesKept(c, Execute(sys, c, i), id)
  {
    hide RenameInv, TableOk, Executed;
    assert OpOk(false, |c.rat|, c.prf, c.valid, c.mem, c.rob[i]) && OpShape(sys, c, OpAt(c, id));
    WriteKeepsSources(c, Execute(sys, c, i), i, id);
  }

  lemma CompleteKeepsSources(sys: Sys, c: State, i: nat, own: seq<Owner>, rats: seq<seq<nat>>, id: int)
    requires sys.Wf() && DataInv(false, sys, c, own, rats) && Shape(sys, c) && InFlightAt(c, id)
    requires i < |c.rob| && c.rob[i].stage == Issued
    ensures SourcesKept(c, CompleteOp(sys, c, i), id)
  {
    hide RenameInv, TableOk, Executed;
    assert OpOk(false, |c.rat|, c.prf, c.valid, c.mem, c.rob[i]) && OpShape(sys, c, OpAt(c, id));
    WriteKeepsSources(c, CompleteOp(sys, c, i), i, id);
  }

  lemma StepKeepsSources(sys: Sys, c: State, st: Step, id: int)
    requires sys.Wf() && Structured(sys, c) && Shape(sys, c) && Enabled(sys, c, st)
    requires InFlightAt(c, id) && InFlightAt(Next(sys, c, st), id)
    ensures SourcesKept(c, Next(sys, c, st), id)
  {
    hide DataInv, Shape, WfProg, CanAllocate, Ready, Allocate, Execute, CompleteOp, Retire, SourcesKept;
    var own, rats :| DataInv(false, sys, c, own, rats);
    match st
    case FetchStep(_, _) => SameSources(sys, c, Next(sys, c, st), own, rats, id);
    case AllocStep =>
      RenamingOf(sys, c, own, rats);
      AllocateKeepsSources(sys, c, own, rats, id);
    case ExecStep(i) => ExecuteKeepsSources(sys, c, i, own, rats, id);
    case CompleteStep(i) => CompleteKeepsSources(sys, c, i, own, rats, id);
    case RetireStep => RetireKeepsSources(sys, c, own, rats, id);
    case Tick => SameSources(sys, c, Next(sys, c, st), own, rats, id);
  }

  /** Allocation numbers only move forward. */
  lemma StepNumbers(sys: Sys, c: State, st: Step)
    requires sys.Wf() && Shape(sys, c) && Enabled(sys, c, st)
    ensures c.HeadId() <= Next(sys, c, st).HeadId() && c.nextId <= Next(sys, c, st).nextId
  {
    hide WfProg, Shape, CanAllocate, Ready, ExecOp, RetireHead;
    if st.RetireStep? && !Decide(c.rob).Stall? && !Decide(c.rob).FlushTo? {
      RetireHeadNumbers(sys, c);
      if Decide(c.rob).TwoThenFlush? {
        RetireHeadShape(sys, c);
        RetireHeadNumbers(sys, RetireHead(sys, c));
      }
    }
  }

  lemma {:induction false} RunNumbers(sys: Sys, c: State, steps: seq<Step>, d: State)
    requires sys.Wf() && Runs(sys, c, steps, d)
    ensures c.HeadId() <= d.HeadId() && c.nextId <= d.nextId
    decreases |steps|
  {
    hide WfProg, Shape, Enabled, Next;
    if steps != [] {
      StepNumbers(sys, c, steps[0]);
      RunNumbers(sys, Next(sys, c, steps[0]), steps[1..], d);
    }
  }

  lemma {:induction false} RunKeepsSources(sys: Sys, c: State, steps: seq<Step>, d: State, id: int)
    requires sys.Wf() && Structured(sys, c) && Runs(sys, c, steps, d) && InFlightAt(c, id) && InFlightAt(d, id)
    ensures SourcesKept(c, d, id)
    decreases |steps|
  {
    hide WfProg, Shape, Enabled, Next, Structured, SourcesKept;
    if steps == [] {
      SourcesKeptRefl(sys, c, id);
    } else {
      var b := Next(sys, c, steps[0]);
      StepNumbers(sys, c, steps[0]);
      RunNumbers(sys, b, steps[1..], d);
      StepKeepsSources(sys, c, steps[0], id);
      StepStructure(sys, c, steps[0]);
      RunKeepsSources(sys, b, steps[1..], d, id);
      SourcesKeptTrans(c, b, d, id);
    }
  }

  lemma SourcesKeptRefl(sys: Sys, c: State, id: int)
    requires Structured(sys, c) && InFlightAt(c, id)
    ensures SourcesKept(c, c, id)
  {
    hide DataInv;
    var own, rats :| DataInv(false, sys, c, own, rats);
    SameSources(sys, c, c, own, rats, id);
  }

  lemma SourcesKeptTrans(c: State, b: State, d: State, id: int)
    requires SourcesKept(c, b, id) && SourcesKept(b, d, id)
    ensures SourcesKept(c, d, id)
  {
  }

  /** In any reachable state every source register of an op in flight is in use, and only an older op can still
      have it as a destination: it has not been handed out again. */
  lemma SourcesNotRecycled(sys: Sys, c: State, i: nat, k: nat)
    requires Reachable(sys, c) && i < |c.rob| && k < |c.rob[i].srcs|
    ensures var p := c.rob[i].srcs[k];
            && p < |c.used| && c.used[p]
            && forall m, j :: 0 <= m < |c.rob| && 0 <= j < |c.rob[m].dests| && c.rob[m].dests[j].prf == p ==> m < i
  {
    hide Reachable, Structured, OpsOk, TableOk, Chain, Prevs, Latest;
    ReachableStructured(sys, c);
    var own, rats := StructuredTables(sys, c);
    var p := c.rob[i].srcs[k];
    SourceOwner(View(c), c.rob, own, rats, i, k);
    forall m, j | 0 <= m < |c.rob| && 0 <= j < |c.rob[m].dests| && c.rob[m].dests[j].prf == p
      ensures m < i
    {
      DestOwner(View(c), own, m, j);
    }
  }

  lemma StructuredTables(sys: Sys, c: State) returns (own: seq<Owner>, rats: seq<seq<nat>>)
    requires Structured(sys, c)
    ensures Owned(View(c), own) && BitsOwned(View(c), own) && Entries(View(c), own, rats) && SrcsOk(c.rob, rats)
    ensures forall i :: 0 <= i < |rats| ==> |rats[i]| == |c.rat|
  {
    hide Chain, Prevs, Owned, BitsOwned, Latest, OpsOk, SrcsOk, TableOk;
    own, rats :| DataInv(false, sys, c, own, rats);
  }

  /** Whenever an op became ready, every later moment of its life shows it the same operand values: when it is
      scheduled does not matter. */
  lemma OperandStability(sys: Sys, c: State, steps: seq<Step>, d: State, id: int)
    requires Reachable(sys, c) && Runs(sys, c, steps, d) && InFlightAt(c, id) && InFlightAt(d, id)
    requires ReadyIn(c.valid, OpAt(c, id))
    ensures SourcesKept(c, d, id) && ReadyIn(d.valid, OpAt(d, id))
    ensures ReadSrcs(d.prf, OpAt(d, id).srcs) == ReadSrcs(c.prf, OpAt(c, id).srcs)
  {
    hide Reachable, Structured, Runs;
    ReachableStructured(sys, c);
    RunKeepsSources(sys, c, steps, d, id);
  }
}
