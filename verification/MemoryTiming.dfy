/** The loads and stores of the core under the timing of the first cache level: the in-flight list of InFlight, driven
    by the core's own steps. */
module MemoryTiming {
  import opened Basics
  import opened Isa
  import opened Core
  import opened Dataflow
  import opened Refinement
  import opened Reachability
  import opened OperandsKept
  import F = InFlight

  predicate IsMemory(inst: Inst) {
    inst.Load? || inst.Store?
  }

  /** The allocation numbers in the reorder buffer, oldest first. */
  ghost function Ids(c: State): (r: seq<nat>)
    requires c.HeadId() >= 0
    ensures |r| == |c.rob|
  {
    seq(|c.rob|, i requires 0 <= i < |c.rob| => c.HeadId() + i)
  }

  /** A load or store has the end of its latency noted exactly once it has been issued. */
  ghost predicate TiedOp(op: Op, o: nat, s: F.State) {
    && (o in s.aux <==> IsMemory(op.inst) && op.stage != Waiting)
    && (o in s.complete <==> op.stage == Complete)
  }

  ghost predicate Tied(c: State, s: F.State) {
    && c.HeadId() >= 0 && s.cycle == c.cycle && s.rob == Ids(c)
    && forall i :: 0 <= i < |c.rob| ==> TiedOp(c.rob[i], c.HeadId() + i, s)
  }

  // ----- one moment of both machines -----------------------------------------------------------------------------

  /** What can happen: a step of the core, an executed load or store being given its latency; the end of the retire
      stage; or the completion of every load and store due in this cycle, in some order. */
  datatype Event = CoreStep(st: Step, lat: nat) | RetireEnds | Completes(order: seq<nat>)

  /** The stages of a cycle run in the order retire, complete, execute; fetch at any time. */
  ghost predicate InPhase(c: State, phase: F.Phase, st: Step) {
    match st
    case RetireStep => phase.Retire?
    case CompleteStep(i) => phase.Complete? && i < |c.rob| && !IsMemory(c.rob[i].inst)
    case FetchStep(_, _) => true
    case _ => phase.Execute?
  }

  /** What a step of the core is for the in-flight list. */
  ghost function Matching(c: State, st: Step, lat: nat): seq<F.Step>
    requires c.HeadId() >= 0
  {
    match st
    case AllocStep => [F.Alloc(c.nextId)]
    case ExecStep(i) => if i < |c.rob| && IsMemory(c.rob[i].inst) then [F.Issue(c.HeadId() + i, lat)] else []
    case CompleteStep(i) => [F.CompleteOther(c.HeadId() + i)]
    case RetireStep => RetireMatching(Decide(c.rob))
    case Tick => [F.Tick]
    case _ => []
  }

  function RetireMatching(a: Action): seq<F.Step> {
    match a
    case Stall => []
    case One => [F.RetireHead]
    case FlushTo(_) => [F.Nuke]
    case OneThenFlush(_) => [F.RetireHead, F.Nuke]
    case TwoThenFlush(_) => [F.RetireHead, F.RetireHead, F.Nuke]
  }

  ghost function Steps(s: F.State, sts: seq<F.Step>): F.State
    decreases |sts|
  {
    if sts == [] then s else Steps(F.Next(s, sts[0]), sts[1..])
  }

  ghost predicate AllEnabled(s: F.State, sts: seq<F.Step>, cap: nat)
    decreases |sts|
  {
    sts != [] ==> F.Enabled(s, sts[0], cap) && AllEnabled(F.Next(s, sts[0]), sts[1..], cap)
  }

  function Completions(order: seq<nat>): (r: seq<Step>)
    ensures |r| == |order|
  {
    seq(|order|, k requires 0 <= k < |order| => CompleteStep(order[k]))
  }

  /** The indices are those of the ops due in this cycle, each once. */
  ghost predicate ListsDue(c: State, s: F.State, order: seq<nat>)
    requires c.HeadId() >= 0
  {
    && Distinct(order) && (forall k :: 0 <= k < |order| ==> order[k] < |c.rob|)
    && forall i :: 0 <= i < |c.rob| ==>
         (i in order <==> c.HeadId() + i in s.due && s.due[c.HeadId() + i] == s.cycle)
  }

  ghost predicate Joint(sys: Sys, c: State, s: F.State, e: Event, d: State, s': F.State)
    requires sys.Wf() && c.HeadId() >= 0
  {
    match e
    case CoreStep(st, lat) =>
      && Shape(sys, c) && Enabled(sys, c, st) && InPhase(c, s.phase, st)
      && d == Next(sys, c, st) && s' == Steps(s, Matching(c, st, lat))
    case RetireEnds => s.phase.Retire? && d == c && s' == F.Next(s, F.EndRetire)
    case Completes(order) =>
      && s.phase.Complete? && ListsDue(c, s, order)
      && Runs(sys, c, Completions(order), d) && s' == F.Next(s, F.CompleteAll)
  }

  // ----- every event keeps the tie --------------------------------------------------------------------------------

  lemma IdAt(c: State, o: nat)
    requires c.HeadId() >= 0
    ensures o in Ids(c) <==> InFlightAt(c, o)
  {
    if InFlightAt(c, o) {
      assert Ids(c)[o - c.HeadId()] == o;
    }
  }

  lemma AllocTied(sys: Sys, c: State, s: F.State)
    requires sys.Wf() && Shape(sys, c) && CanAllocate(sys, c) && Tied(c, s) && F.Inv(s, sys.robCap)
    requires s.phase.Execute?
    ensures F.Enabled(s, F.Alloc(c.nextId), sys.robCap) && Tied(Allocate(sys, c), F.Next(s, F.Alloc(c.nextId)))
  {
    hide Shape, WfProg, Rename, F.OnTime;
    var d, s' := Allocate(sys, c), F.Next(s, F.Alloc(c.nextId));
    IdAt(c, c.nextId);
    assert d.rob[..|c.rob|] == c.rob && d.HeadId() == c.HeadId();
    forall i | 0 <= i < |d.rob|
      ensures TiedOp(d.rob[i], d.HeadId() + i, s')
    {
      if i < |c.rob| {
        assert TiedOp(c.rob[i], c.HeadId() + i, s);
      }
    }
    assert Ids(d) == Ids(c) + [c.nextId];
  }

  lemma NoStep(s: F.State, cap: nat)
    ensures Steps(s, []) == s && AllEnabled(s, [], cap)
  {
  }

  lemma FirstStep(s: F.State, st: F.Step, rest: seq<F.Step>, cap: nat)
    ensures Steps(s, [st] + rest) == Steps(F.Next(s, st), rest)
    ensures AllEnabled(s, [st] + rest, cap) <==> F.Enabled(s, st, cap) && AllEnabled(F.Next(s, st), rest, cap)
  {
    assert ([st] + rest)[1..] == rest;
  }

  lemma OneStep(s: F.State, st: F.Step, cap: nat)
    ensures Steps(s, [st]) == F.Next(s, st)
    ensures AllEnabled(s, [st], cap) <==> F.Enabled(s, st, cap)
  {
    assert [st] + [] == [st];
    FirstStep(s, st, [], cap);
    NoStep(F.Next(s, st), cap);
  }

  lemma ExecuteFrame(sys: Sys, c: State, i: nat)
    requires sys.Wf() && Shape(sys, c) && i < |c.rob|
    ensures var d := Execute(sys, c, i);
            && d.rob == c.rob[i := d.rob[i]] && d.nextId == c.nextId && d.cycle == c.cycle
            && d.rob[i].inst == c.rob[i].inst && d.rob[i].stage == Issued
  {
    hide WfProg, Results, ControlTarget, LoadAligned, EffAddr, ExecutesSlot;
  }

  /** Executing a load or store issues it: it was not issued before, so the list has room. */
  lemma IssueTied(c: State, d: State, s: F.State, i: nat, lat: nat, cap: nat)
    requires Tied(c, s) && F.Inv(s, cap) && s.phase.Execute? && i < |c.rob| && |d.rob| == |c.rob|
    requires c.rob[i].stage == Waiting && IsMemory(c.rob[i].inst)
    requires d.rob == c.rob[i := d.rob[i]] && d.nextId == c.nextId && d.cycle == c.cycle
    requires d.rob[i].inst == c.rob[i].inst && d.rob[i].stage == Issued
    ensures var st := F.Issue(c.HeadId() + i, lat); F.Enabled(s, st, cap) && Tied(d, F.Next(s, st))
  {
    hide F.OnTime;
    var o := c.HeadId() + i;
    IdAt(c, o);
    assert TiedOp(c.rob[i], o, s);
    assert Ids(d) == Ids(c);
    forall k | 0 <= k < |d.rob|
      ensures TiedOp(d.rob[k], d.HeadId() + k, F.Next(s, F.Issue(o, lat)))
    {
      assert TiedOp(c.rob[k], c.HeadId() + k, s);
    }
  }

  lemma OtherTied(c: State, d: State, s: F.State, i: nat)
    requires Tied(c, s) && i < |c.rob| && |d.rob| == |c.rob|
    requires c.rob[i].stage == Waiting && !IsMemory(c.rob[i].inst)
    requires d.rob == c.rob[i := d.rob[i]] && d.nextId == c.nextId && d.cycle == c.cycle
    requires d.rob[i].inst == c.rob[i].inst && d.rob[i].stage == Issued
    ensures Tied(d, s)
  {
    assert Ids(d) == Ids(c);
    forall k | 0 <= k < |d.rob|
      ensures TiedOp(d.rob[k], d.HeadId() + k, s)
    {
      assert TiedOp(c.rob[k], c.HeadId() + k, s);
    }
  }

  lemma ExecTied(sys: Sys, c: State, s: F.State, i: nat, lat: nat)
    requires sys.Wf() && Shape(sys, c) && Tied(c, s) && F.Inv(s, sys.robCap) && s.phase.Execute?
    requires i < |c.rob| && c.rob[i].stage == Waiting
    ensures var sts := Matching(c, ExecStep(i), lat);
            AllEnabled(s, sts, sys.robCap) && Tied(Execute(sys, c, i), Steps(s, sts))
  {
    hide Shape, WfProg, Execute, F.Inv, F.Enabled, F.Next, Tied, Steps, AllEnabled, IsMemory;
    ExecuteFrame(sys, c, i);
    TiedHead(c, s);
    if IsMemory(c.rob[i].inst) {
      IssueTied(c, Execute(sys, c, i), s, i, lat, sys.robCap);
      OneStep(s, F.Issue(c.HeadId() + i, lat), sys.robCap);
    } else {
      OtherTied(c, Execute(sys, c, i), s, i);
      NoStep(s, sys.robCap);
    }
  }

  lemma TiedHead(c: State, s: F.State)
    requires Tied(c, s)
    ensures c.HeadId() >= 0
  {
  }

  lemma CompleteTied(sys: Sys, c: State, s: F.State, i: nat)
    requires sys.Wf() && Shape(sys, c) && Tied(c, s) && F.Inv(s, sys.robCap) && s.phase.Complete?
    requires i < |c.rob| && c.rob[i].stage == Issued && !IsMemory(c.rob[i].inst)
    ensures var st := F.CompleteOther(c.HeadId() + i);
            F.Enabled(s, st, sys.robCap) && Tied(CompleteOp(sys, c, i), F.Next(s, st))
  {
    hide Shape, WfProg, F.OnTime;
    var d, o := CompleteOp(sys, c, i), c.HeadId() + i;
    IdAt(c, o);
    assert TiedOp(c.rob[i], o, s);
    assert Ids(d) == Ids(c);
    forall k | 0 <= k < |d.rob|
      ensures TiedOp(d.rob[k], d.HeadId() + k, F.Next(s, F.CompleteOther(o)))
    {
      assert TiedOp(c.rob[k], c.HeadId() + k, s);
    }
  }

  lemma HeadTied(sys: Sys, c: State, s: F.State)
    requires sys.Wf() && Shape(sys, c) && Tied(c, s) && F.Inv(s, sys.robCap) && s.phase.Retire?
    requires |c.rob| > 0 && c.rob[0].stage == Complete
    ensures F.Enabled(s, F.RetireHead, sys.robCap) && Tied(RetireHead(sys, c), F.Next(s, F.RetireHead))
  {
    hide Shape, WfProg, F.OnTime;
    var d, s' := RetireHead(sys, c), F.Next(s, F.RetireHead);
    assert TiedOp(c.rob[0], c.HeadId() + 0, s);
    assert d.HeadId() == c.HeadId() + 1 && s.rob[0] == c.HeadId();
    assert Ids(d) == Ids(c)[1..];
    forall k | 0 <= k < |d.rob|
      ensures TiedOp(d.rob[k], d.HeadId() + k, s')
    {
      assert TiedOp(c.rob[k + 1], c.HeadId() + (k + 1), s);
    }
  }

  lemma FlushTied(c: State, s: F.State, pc: Word)
    requires Tied(c, s)
    ensures Tied(Flush(c, pc), F.Next(s, F.Nuke))
  {
  }

  lemma TickTied(c: State, s: F.State)
    requires Tied(c, s)
    ensures Tied(c.(cycle := c.cycle + 1), F.Next(s, F.Tick))
  {
    var d, s' := c.(cycle := c.cycle + 1), F.Next(s, F.Tick);
    assert Ids(d) == Ids(c);
    forall k | 0 <= k < |d.rob|
      ensures TiedOp(d.rob[k], d.HeadId() + k, s')
    {
      assert TiedOp(c.rob[k], c.HeadId() + k, s);
    }
  }

  lemma SameTied(c: State, d: State, s: F.State, phase: F.Phase)
    requires Tied(c, s) && d.rob == c.rob && d.nextId == c.nextId && d.cycle == c.cycle
    ensures Tied(d, s.(phase := phase))
  {
    assert Ids(d) == Ids(c);
    forall k | 0 <= k < |d.rob|
      ensures TiedOp(d.rob[k], d.HeadId() + k, s.(phase := phase))
    {
      assert TiedOp(c.rob[k], c.HeadId() + k, s);
    }
  }

  /** Up to two heads retire and the rest may be thrown out. */
  lemma RetireTied(sys: Sys, c: State, s: F.State)
    requires sys.Wf() && Shape(sys, c) && Tied(c, s) && F.Inv(s, sys.robCap) && s.phase.Retire?
    ensures var sts := RetireMatching(Decide(c.rob));
            AllEnabled(s, sts, sys.robCap) && Tied(Retire(sys, c), Steps(s, sts))
  {
    hide Shape, WfProg, RetireHead, Flush, F.Inv, F.Enabled, F.Next, Tied, Steps, AllEnabled;
    match Decide(c.rob)
    case Stall => NoStep(s, sys.robCap);
    case One =>
      HeadTied(sys, c, s);
      OneStep(s, F.RetireHead, sys.robCap);
    case FlushTo(pc) => FlushEnds(sys, c, s, pc);
    case OneThenFlush(pc) =>
      HeadTied(sys, c, s);
      HeadPhase(s);
      FlushEnds(sys, RetireHead(sys, c), F.Next(s, F.RetireHead), pc);
      FirstStep(s, F.RetireHead, [F.Nuke], sys.robCap);
      assert [F.RetireHead] + [F.Nuke] == [F.RetireHead, F.Nuke];
    case TwoThenFlush(pc) =>
      HeadTied(sys, c, s);
      HeadPhase(s);
      F.StepKeeps(s, F.RetireHead, sys.robCap);
      RetireHeadShape(sys, c);
      RetireHeadNumbers(sys, c);
      NextHead(sys, c);
      var b, t := RetireHead(sys, c), F.Next(s, F.RetireHead);
      HeadTied(sys, b, t);
      HeadPhase(t);
      FlushEnds(sys, RetireHead(sys, b), F.Next(t, F.RetireHead), pc);
      FirstStep(t, F.RetireHead, [F.Nuke], sys.robCap);
      FirstStep(s, F.RetireHead, [F.RetireHead] + [F.Nuke], sys.robCap);
      assert [F.RetireHead] + ([F.RetireHead] + [F.Nuke]) == [F.RetireHead, F.RetireHead, F.Nuke];
  }

  lemma NextHead(sys: Sys, c: State)
    requires sys.Wf() && Shape(sys, c) && |c.rob| > 1 && c.rob[0].stage == Complete
    ensures |RetireHead(sys, c).rob| == |c.rob| - 1
  {
    hide WfProg, Shape;
  }

  lemma HeadPhase(s: F.State)
    ensures F.Next(s, F.RetireHead).phase == s.phase
  {
  }

  lemma FlushEnds(sys: Sys, c: State, s: F.State, pc: Word)
    requires Tied(c, s) && s.phase.Retire?
    ensures AllEnabled(s, [F.Nuke], sys.robCap) && Tied(Flush(c, pc), Steps(s, [F.Nuke]))
  {
    FlushTied(c, s, pc);
    OneStep(s, F.Nuke, sys.robCap);
  }

  // ----- completion -----------------------------------------------------------------------------------------------

  /** What is due in this cycle has been issued and has not completed, so the core can complete it. */
  lemma DueIsIssued(c: State, s: F.State, cap: nat, i: nat)
    requires Tied(c, s) && F.Inv(s, cap) && s.phase.Complete? && i < |c.rob|
    requires var o := c.HeadId() + i; o in s.due && s.due[o] == s.cycle
    ensures c.rob[i].stage == Issued && IsMemory(c.rob[i].inst)
  {
    var o := c.HeadId() + i;
    assert TiedOp(c.rob[i], o, s);
    assert F.OnTime(s, o);
  }

  /** The core's state while the ops of a list complete one after the other. */
  ghost predicate Completing(c: State, d: State, order: seq<nat>) {
    && d.nextId == c.nextId && |d.rob| == |c.rob| && d.cycle == c.cycle
    && forall i :: 0 <= i < |c.rob| ==>
         d.rob[i].inst == c.rob[i].inst && d.rob[i].stage == if i in order then Complete else c.rob[i].stage
  }

  lemma CompletedOne(sys: Sys, c: State, i: nat)
    requires sys.Wf() && Shape(sys, c) && i < |c.rob| && c.rob[i].stage == Issued
    ensures Completing(c, CompleteOp(sys, c, i), [i])
  {
    hide WfProg, Shape, LoadValues;
  }

  lemma CompletingMore(c: State, b: State, d: State, i: nat, rest: seq<nat>)
    requires Completing(c, b, [i]) && Completing(b, d, rest)
    ensures Completing(c, d, [i] + rest)
  {
  }

  lemma {:induction false} CompletionsRun(sys: Sys, c: State, order: seq<nat>, d: State)
    requires sys.Wf() && Runs(sys, c, Completions(order), d)
    ensures Completing(c, d, order)
    decreases |order|
  {
    if order != [] {
      hide WfProg, Shape, CompleteOp, Completing;
      assert Completions(order)[0] == CompleteStep(order[0]);
      assert Completions(order)[1..] == Completions(order[1..]);
      CompletionsRun(sys, CompleteOp(sys, c, order[0]), order[1..], d);
      CompletedOne(sys, c, order[0]);
      CompletingMore(c, CompleteOp(sys, c, order[0]), d, order[0], order[1..]);
      assert [order[0]] + order[1..] == order;
    }
  }

  lemma CompletesTied(c: State, s: F.State, order: seq<nat>, d: State, cap: nat)
    requires Tied(c, s) && ListsDue(c, s, order) && Completing(c, d, order)
    requires F.Inv(s, cap) && s.phase.Complete?
    ensures Tied(d, F.Next(s, F.CompleteAll))
  {
    hide F.OnTime;
    var s' := F.Next(s, F.CompleteAll);
    assert Ids(d) == Ids(c);
    forall i | 0 <= i < |d.rob|
      ensures TiedOp(d.rob[i], d.HeadId() + i, s')
    {
      assert TiedOp(c.rob[i], c.HeadId() + i, s);
      if i in order {
        DueIsIssued(c, s, cap, i);
      }
    }
  }

  // ----- runs -----------------------------------------------------------------------------------------------------

  /** The in-flight list's steps behind one event. */
  ghost function StepsOf(c: State, e: Event): seq<F.Step>
    requires c.HeadId() >= 0
  {
    match e
    case CoreStep(st, lat) => Matching(c, st, lat)
    case RetireEnds => [F.EndRetire]
    case Completes(_) => [F.CompleteAll]
  }

  lemma {:induction false} StepsKeep(s: F.State, sts: seq<F.Step>, cap: nat)
    requires F.Inv(s, cap) && AllEnabled(s, sts, cap)
    ensures F.Inv(Steps(s, sts), cap)
    decreases |sts|
  {
    hide F.Inv, F.Enabled, F.Next;
    if sts != [] {
      F.StepKeeps(s, sts[0], cap);
      StepsKeep(F.Next(s, sts[0]), sts[1..], cap);
    }
  }

  lemma CoreStepTied(sys: Sys, c: State, s: F.State, st: Step, lat: nat)
    requires sys.Wf() && Shape(sys, c) && Tied(c, s) && F.Inv(s, sys.robCap) && c.HeadId() >= 0
    requires Enabled(sys, c, st) && InPhase(c, s.phase, st)
    ensures var sts := Matching(c, st, lat);
            AllEnabled(s, sts, sys.robCap) && Tied(Next(sys, c, st), Steps(s, sts))
  {
    hide Shape, WfProg, CanAllocate, Ready, Fetch, Allocate, Execute, CompleteOp, Retire, F.Inv, F.Enabled, F.Next,
      Tied, Steps, AllEnabled;
    match st
    case FetchStep(take, ret) =>
      NoStep(s, sys.robCap);
      FetchFrame(sys, c, take, ret);
      SameTied(c, Fetch(sys, c, take, ret), s, s.phase);
    case AllocStep =>
      AllocTied(sys, c, s);
      OneStep(s, F.Alloc(c.nextId), sys.robCap);
    case ExecStep(i) => ExecTied(sys, c, s, i, lat);
    case CompleteStep(i) =>
      CompleteTied(sys, c, s, i);
      OneStep(s, F.CompleteOther(c.HeadId() + i), sys.robCap);
    case RetireStep => RetireTied(sys, c, s);
    case Tick =>
      TickTied(c, s);
      OneStep(s, F.Tick, sys.robCap);
      TickEnabled(s, sys.robCap);
  }

  lemma FetchFrame(sys: Sys, c: State, take: bool, ret: Word)
    ensures var d := Fetch(sys, c, take, ret); d.rob == c.rob && d.nextId == c.nextId && d.cycle == c.cycle
  {
  }

  lemma TickEnabled(s: F.State, cap: nat)
    ensures F.Enabled(s, F.Tick, cap) <==> s.phase.Execute?
  {
  }

  /** Whatever happens next, the list's own guards hold, the tie and its invariant are kept. */
  lemma JointKeeps(sys: Sys, c: State, s: F.State, e: Event, d: State, s': F.State)
    requires sys.Wf() && Structured(sys, c) && Tied(c, s) && F.Inv(s, sys.robCap) && c.HeadId() >= 0
    requires Joint(sys, c, s, e, d, s')
    ensures AllEnabled(s, StepsOf(c, e), sys.robCap) && s' == Steps(s, StepsOf(c, e))
    ensures Structured(sys, d) && Tied(d, s') && F.Inv(s', sys.robCap)
  {
    hide Shape, WfProg, Structured, Enabled, Next, F.Inv, F.Enabled, F.Next, Tied, Steps, AllEnabled, InPhase, Matching,
      ListsDue;
    match e
    case CoreStep(st, lat) =>
      CoreStepTied(sys, c, s, st, lat);
      StepStructure(sys, c, st);
      StepsKeep(s, StepsOf(c, e), sys.robCap);
    case RetireEnds =>
      SameTied(c, c, s, F.Complete);
      PhaseSteps(s, sys.robCap);
      StepsKeep(s, StepsOf(c, e), sys.robCap);
    case Completes(order) =>
      CompletionsRun(sys, c, order, d);
      CompletesTied(c, s, order, d, sys.robCap);
      RunStructure(sys, c, Completions(order), d);
      PhaseSteps(s, sys.robCap);
      StepsKeep(s, StepsOf(c, e), sys.robCap);
  }

  lemma PhaseSteps(s: F.State, cap: nat)
    ensures Steps(s, [F.EndRetire]) == F.Next(s, F.EndRetire) == s.(phase := F.Complete)
    ensures s.phase.Retire? ==> AllEnabled(s, [F.EndRetire], cap)
    ensures Steps(s, [F.CompleteAll]) == F.Next(s, F.CompleteAll)
    ensures s.phase.Complete? ==> AllEnabled(s, [F.CompleteAll], cap)
  {
    OneStep(s, F.EndRetire, cap);
    OneStep(s, F.CompleteAll, cap);
  }

  /** A run of both machines from reset. */
  ghost predicate JointRun(sys: Sys, cs: seq<State>, ss: seq<F.State>, es: seq<Event>) {
    && sys.Wf() && |cs| == |ss| == |es| + 1
    && Initial(sys, cs[0]) && F.Start(ss[0]) && ss[0].cycle == cs[0].cycle
    && forall k :: 0 <= k < |es| ==>
         cs[k].HeadId() >= 0 && Joint(sys, cs[k], ss[k], es[k], cs[k + 1], ss[k + 1])
  }

  lemma StartTied(sys: Sys, c: State, s: F.State)
    requires sys.Wf() && Initial(sys, c) && F.Start(s) && s.cycle == c.cycle
    ensures Structured(sys, c) && Tied(c, s) && F.Inv(s, sys.robCap)
  {
    hide DataInv;
    var own := InitialData(sys, c);
    assert DataInv(false, sys, c, own, [c.rat]);
  }

  lemma {:induction false} RunTied(sys: Sys, cs: seq<State>, ss: seq<F.State>, es: seq<Event>, n: nat)
    requires JointRun(sys, cs, ss, es) && n < |cs|
    ensures Structured(sys, cs[n]) && Tied(cs[n], ss[n]) && F.Inv(ss[n], sys.robCap)
  {
    hide Initial, WfProg, Joint, Structured, Tied, F.Inv, F.Start;
    if n == 0 {
      StartTied(sys, cs[0], ss[0]);
    } else {
      RunTied(sys, cs, ss, es, n - 1);
      JointKeeps(sys, cs[n - 1], ss[n - 1], es[n - 1], cs[n], ss[n]);
    }
  }

  lemma RunEvent(sys: Sys, cs: seq<State>, ss: seq<F.State>, es: seq<Event>, k: nat)
    requires JointRun(sys, cs, ss, es) && k < |es|
    ensures sys.Wf() && |cs| == |ss| == |es| + 1 && cs[k].HeadId() >= 0
    ensures Joint(sys, cs[k], ss[k], es[k], cs[k + 1], ss[k + 1])
    ensures Structured(sys, cs[k]) && Tied(cs[k], ss[k]) && F.Inv(ss[k], sys.robCap)
  {
    hide Initial, WfProg, Joint, Structured, Tied, F.Inv, F.Start;
    RunTied(sys, cs, ss, es, k);
  }

  lemma JointNumbers(sys: Sys, c: State, s: F.State, e: Event, d: State, s': F.State)
    requires sys.Wf() && c.HeadId() >= 0 && Joint(sys, c, s, e, d, s')
    ensures c.HeadId() <= d.HeadId() && c.nextId <= d.nextId
  {
    hide Shape, WfProg, Enabled, Next, InPhase, Matching, ListsDue, Runs, F.Next;
    match e
    case CoreStep(st, lat) => StepNumbers(sys, c, st);
    case RetireEnds =>
    case Completes(order) => RunNumbers(sys, c, Completions(order), d);
  }

  lemma {:induction false} NumbersGrow(sys: Sys, cs: seq<State>, ss: seq<F.State>, es: seq<Event>, k: nat, n: nat)
    requires JointRun(sys, cs, ss, es) && k <= n < |cs|
    ensures cs[k].HeadId() <= cs[n].HeadId() && cs[k].nextId <= cs[n].nextId
  {
    hide JointRun, Joint, F.Inv, Structured, Tied;
    if k < n {
      assert |cs| == |es| + 1 by { RunSize(sys, cs, ss, es); }
      NumbersGrow(sys, cs, ss, es, k, n - 1);
      RunEvent(sys, cs, ss, es, n - 1);
      JointNumbers(sys, cs[n - 1], ss[n - 1], es[n - 1], cs[n], ss[n]);
    }
  }

  lemma RunSize(sys: Sys, cs: seq<State>, ss: seq<F.State>, es: seq<Event>)
    requires JointRun(sys, cs, ss, es)
    ensures |cs| == |ss| == |es| + 1
  {
  }

  /** An op that stays in the reorder buffer keeps the end of its latency. */
  lemma EndKept(s: F.State, sts: seq<F.Step>, cap: nat, o: nat)
    requires F.Inv(s, cap) && AllEnabled(s, sts, cap) && o in s.aux && o in Steps(s, sts).rob
    requires |sts| <= 1 || sts[|sts| - 1] == F.Nuke
    ensures o in Steps(s, sts).aux && Steps(s, sts).aux[o] == s.aux[o]
  {
    if |sts| == 0 {
      NoStep(s, cap);
    } else if |sts| == 1 {
      assert sts == [sts[0]];
      OneStep(s, sts[0], cap);
      hide F.Inv, F.Enabled, F.Next;
      F.LatencyFixed(s, sts[0], cap, o);
    } else {
      NukeEmpties(s, sts);
      assert false;
    }
  }

  lemma {:induction false} NukeEmpties(s: F.State, sts: seq<F.Step>)
    requires |sts| > 0 && sts[|sts| - 1] == F.Nuke
    ensures Steps(s, sts).rob == []
    decreases |sts|
  {
    hide F.Next;
    if |sts| == 1 {
      assert sts == [F.Nuke];
      OneStep(s, F.Nuke, 0);
      NukedRob(s);
    } else {
      NukeEmpties(F.Next(s, sts[0]), sts[1..]);
    }
  }

  lemma NukedRob(s: F.State)
    ensures F.Next(s, F.Nuke).rob == []
  {
  }

  lemma StepsOfShape(c: State, e: Event)
    requires c.HeadId() >= 0
    ensures var sts := StepsOf(c, e); |sts| <= 1 || sts[|sts| - 1] == F.Nuke
  {
  }

  lemma TiedId(c: State, s: F.State, o: nat)
    requires Tied(c, s)
    ensures o in s.rob <==> InFlightAt(c, o)
    ensures InFlightAt(c, o) ==> TiedOp(OpAt(c, o), o, s)
  {
    IdAt(c, o);
    if InFlightAt(c, o) {
      assert TiedOp(c.rob[o - c.HeadId()], c.HeadId() + (o - c.HeadId()), s);
    }
  }

  lemma {:induction false} EndKeptRun(sys: Sys, cs: seq<State>, ss: seq<F.State>, es: seq<Event>, o: nat, k: nat,
                                      n: nat)
    requires JointRun(sys, cs, ss, es) && |ss| == |cs| && k <= n < |cs|
    requires o in ss[k].aux && InFlightAt(cs[k], o) && InFlightAt(cs[n], o)
    ensures o in ss[n].aux && ss[n].aux[o] == ss[k].aux[o]
  {
    hide JointRun, Joint, F.Inv, Structured, Tied, F.Enabled, F.Next, Steps, AllEnabled, StepsOf;
    if k < n {
      RunSize(sys, cs, ss, es);
      NumbersGrow(sys, cs, ss, es, k, n - 1);
      NumbersGrow(sys, cs, ss, es, n - 1, n);
      EndKeptRun(sys, cs, ss, es, o, k, n - 1);
      RunEvent(sys, cs, ss, es, n - 1);
      JointKeeps(sys, cs[n - 1], ss[n - 1], es[n - 1], cs[n], ss[n]);
      TiedId(cs[n], ss[n], o);
      StepsOfShape(cs[n - 1], es[n - 1]);
      EndKept(ss[n - 1], StepsOf(cs[n - 1], es[n - 1]), sys.robCap, o);
    }
  }

  /** The event gives op j of the reorder buffer, a load or store, to the first cache level. */
  ghost predicate Issues(c: State, e: Event, j: nat) {
    && e.CoreStep? && e.st == ExecStep(j) && j < |c.rob| && IsMemory(c.rob[j].inst) && c.HeadId() >= 0
  }

  /** What issuing does to the list: it has room for the op, whose end is noted. */
  lemma IssueEvent(sys: Sys, c: State, s: F.State, d: State, s': F.State, j: nat, lat: nat, o: nat)
    requires sys.Wf() && Structured(sys, c) && Tied(c, s) && F.Inv(s, sys.robCap)
    requires c.HeadId() >= 0 && o == c.HeadId() + j && Issues(c, CoreStep(ExecStep(j), lat), j)
    requires Joint(sys, c, s, CoreStep(ExecStep(j), lat), d, s')
    ensures |s.inflight| < sys.robCap && InFlightAt(c, o) && InFlightAt(d, o)
    ensures o in s'.aux && s'.aux[o] == c.cycle + lat
  {
    hide Shape, WfProg, Structured, F.Inv, F.Enabled;
    JointKeeps(sys, c, s, CoreStep(ExecStep(j), lat), d, s');
    OneStep(s, F.Issue(o, lat), sys.robCap);
    F.NeverFull(s, o, lat, sys.robCap);
    ExecuteFrame(sys, c, j);
  }

  /** Over every run of core and cache together: the list has room for each load or store the core executes; and while
      the op is in the reorder buffer, executed in cycle t with latency lat, it is complete in the core exactly from
      cycle t + lat + 1 on. */
  lemma CoreTiming(sys: Sys, cs: seq<State>, ss: seq<F.State>, es: seq<Event>, k: nat, n: nat, j: nat)
    requires JointRun(sys, cs, ss, es) && |cs| == |ss| == |es| + 1 && k < n < |cs| && Issues(cs[k], es[k], j)
    requires InFlightAt(cs[n], cs[k].HeadId() + j)
    ensures |ss[k].inflight| < sys.robCap
    ensures var o, end := cs[k].HeadId() + j, cs[k].cycle + es[k].lat;
            && OpAt(cs[n], o).stage != Waiting
            && (o in ss[n].inflight <==> cs[n].cycle <= end)
            && (OpAt(cs[n], o).stage == Complete <==>
                end + 1 < cs[n].cycle || (end + 1 == cs[n].cycle && ss[n].phase == F.Execute))
  {
    hide JointRun, Joint, Structured, Tied, F.Enabled, F.Next;
    var o := cs[k].HeadId() + j;
    RunEvent(sys, cs, ss, es, k);
    IssueEvent(sys, cs[k], ss[k], cs[k + 1], ss[k + 1], j, es[k].lat, o);
    EndKeptRun(sys, cs, ss, es, o, k + 1, n);
    RunTied(sys, cs, ss, es, n);
    TiedId(cs[n], ss[n], o);
    TiedCycle(cs[n], ss[n]);
    assert F.OnTime(ss[n], o);
  }

  lemma TiedCycle(c: State, s: F.State)
    requires Tied(c, s)
    ensures s.cycle == c.cycle
  {
  }
}
