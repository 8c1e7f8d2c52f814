/** Runs built step by step. */
module Schedules {
  import opened Isa
  import opened Core
  import opened Dataflow
  import opened Refinement
  import opened Reachability

  /** The steps lead from the initial state c0 to c. */
  ghost predicate At(sys: Sys, c0: State, steps: seq<Step>, c: State) {
    sys.Wf() && Initial(sys, c0) && Runs(sys, c0, steps, c) && Structured(sys, c)
  }

  lemma {:induction false} RunAppend(sys: Sys, c: State, steps: seq<Step>, d: State, st: Step)
    requires sys.Wf() && Runs(sys, c, steps, d) && Shape(sys, d) && Enabled(sys, d, st)
    ensures Runs(sys, c, steps + [st], Next(sys, d, st))
    decreases |steps|
  {
    hide Shape, WfProg, Enabled, Next;
    if steps == [] {
      assert ([] + [st])[1..] == [];
    } else {
      assert (steps + [st])[1..] == steps[1..] + [st];
      RunAppend(sys, Next(sys, c, steps[0]), steps[1..], d, st);
    }
  }

  /** Two runs from the same state by the same choices go the same way. */
  lemma {:induction false} RunSplit(sys: Sys, c: State, steps: seq<Step>, d: State, all: seq<Step>, e: State)
    requires sys.Wf() && Runs(sys, c, steps, d) && Runs(sys, c, all, e) && steps <= all
    ensures Runs(sys, d, all[|steps|..], e)
    decreases |steps|
  {
    hide Shape, WfProg, Enabled, Next;
    if steps == [] {
      assert all[0..] == all;
    } else {
      assert all[1..][|steps[1..]|..] == all[|steps|..];
      RunSplit(sys, Next(sys, c, steps[0]), steps[1..], d, all[1..], e);
    }
  }

  lemma Begin(sys: Sys, c: State)
    requires sys.Wf() && Initial(sys, c)
    ensures At(sys, c, [], c) && Shape(sys, c)
  {
    hide DataInv;
    var own := InitialData(sys, c);
    assert DataInv(false, sys, c, own, [c.rat]);
  }

  lemma Go(sys: Sys, c0: State, steps: seq<Step>, c: State, st: Step, d: State) returns (steps': seq<Step>)
    requires At(sys, c0, steps, c) && sys.Wf() && Shape(sys, c) && Enabled(sys, c, st) && Next(sys, c, st) == d
    ensures At(sys, c0, steps', d) && Shape(sys, d) && steps <= steps'
  {
    steps' := steps + [st];
    hide Initial, Structured, Shape, WfProg, Enabled, Next, Runs;
    RunAppend(sys, c0, steps, c, st);
    StepStructure(sys, c, st);
    StructuredShape(sys, d);
  }

  lemma Ends(sys: Sys, c0: State, steps: seq<Step>, c: State)
    requires At(sys, c0, steps, c)
    ensures sys.Wf() && Initial(sys, c0) && Runs(sys, c0, steps, c)
  {
  }
}
