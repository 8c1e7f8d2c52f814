/** Memory operations in flight: issued to the first cache level, released when their latency has passed, complete one
    cycle after that. */
module InFlight {
  import opened Basics
  import opened Links
  import opened PooledList

  /** The stages of one cycle that matter here, in the order they run. */
  datatype Phase = Retire | Complete | Execute

  /** rob: the operations in the reorder buffer; aux: the cycle an issued operation's latency ends; due: the cycle a
      released operation completes; complete: the operations marked complete. */
  datatype State = State(cycle: nat, phase: Phase, rob: seq<nat>, inflight: seq<nat>, aux: map<nat, nat>,
                         due: map<nat, nat>, complete: set<nat>)

  datatype Step =
    | RetireHead
    | Nuke
    | EndRetire
    | CompleteOther(op: nat)
    | CompleteAll
    | Alloc(op: nat)
    | Issue(op: nat, lat: nat)
    | Tick

  /** Whether an operation's latency ends in this cycle. */
  function DueIn(aux: map<nat, nat>, cycle: nat): nat -> bool {
    o => o in aux && aux[o] == cycle
  }

  /** The completion cycles after the operations whose latency ends now have been released. */
  function Stamped(due: map<nat, nat>, ops: seq<nat>, aux: map<nat, nat>, cycle: nat): map<nat, nat> {
    map o | o in due.Keys + (set x | x in ops) && (o in due || DueIn(aux, cycle)(o)) ::
      if o in ops && DueIn(aux, cycle)(o) then cycle + 1 else due[o]
  }

  predicate Enabled(s: State, step: Step, cap: nat) {
    match step
    case RetireHead => s.phase == Retire && |s.rob| > 0 && s.rob[0] in s.complete
    case Nuke => s.phase == Retire
    case EndRetire => s.phase == Retire
    case CompleteOther(op) => s.phase == Complete && op in s.rob && op !in s.aux
    case CompleteAll => s.phase == Complete
    case Alloc(op) => s.phase == Execute && op !in s.rob && |s.rob| < cap
    case Issue(op, _) => s.phase == Execute && op in s.rob && op !in s.aux && op !in s.complete
    case Tick => s.phase == Execute
  }

  function Next(s: State, step: Step): State {
    match step
    case RetireHead =>
      if s.rob == [] then s
      else s.(rob := s.rob[1..], aux := s.aux - {s.rob[0]}, due := s.due - {s.rob[0]},
          complete := s.complete - {s.rob[0]})
    case Nuke => s.(rob := [], inflight := [], aux := map[], due := map[], complete := {})
    case EndRetire => s.(phase := Complete)
    case CompleteOther(op) => s.(complete := s.complete + {op})
    case CompleteAll => s.(phase := Execute, complete := s.complete + set o | o in s.due.Keys && s.due[o] == s.cycle)
    case Alloc(op) => s.(rob := s.rob + [op])
    case Issue(op, lat) => s.(aux := s.aux[op := s.cycle + lat], inflight := s.inflight + [op])
    case Tick =>
      State(s.cycle + 1, Retire, s.rob, Kept(s.inflight, DueIn(s.aux, s.cycle)), s.aux,
            Stamped(s.due, s.inflight, s.aux, s.cycle), s.complete)
  }

  /** Where an issued operation is follows from the cycle alone: in flight up to the end of its latency, released in
      that very cycle, complete from the next one. */
  ghost predicate OnTime(s: State, o: nat)
    requires o in s.aux
  {
    && (o in s.inflight <==> s.cycle <= s.aux[o])
    && (o in s.due <==> s.aux[o] < s.cycle)
    && (o in s.due ==> s.due[o] == s.aux[o] + 1)
    && (o in s.complete <==> s.aux[o] + 1 < s.cycle || (s.aux[o] + 1 == s.cycle && s.phase == Execute))
  }

  ghost predicate Inv(s: State, cap: nat) {
    && |s.rob| <= cap && Distinct(s.rob) && Distinct(s.inflight)
    && (forall o :: o in s.inflight ==> o in s.aux)
    && (forall o :: o in s.aux ==> o in s.rob && OnTime(s, o))
    && (forall o :: o in s.due ==> o in s.aux)
    && (forall o :: o in s.complete ==> o in s.rob)
  }

  ghost predicate Start(s: State) {
    s == State(s.cycle, Retire, [], [], map[], map[], {})
  }

  lemma {:induction false} KeptMembers(s: seq<nat>, p: nat -> bool)
    requires Distinct(s)
    ensures Distinct(Kept(s, p)) && forall x :: x in Kept(s, p) <==> x in s && !p(x)
  {
    if s != [] {
      var n := |s| - 1;
      KeptMembers(s[..n], p);
      assert s == s[..n] + [s[n]];
    }
  }

  lemma TickKeeps(s: State, cap: nat)
    requires Inv(s, cap) && s.phase == Execute
    ensures Inv(Next(s, Tick), cap)
  {
    KeptMembers(s.inflight, DueIn(s.aux, s.cycle));
    hide Kept;
    var n := Next(s, Tick);
    forall o | o in n.aux
      ensures OnTime(n, o)
    {
      assert OnTime(s, o);
    }
  }

  lemma RetireKeeps(s: State, cap: nat)
    requires Inv(s, cap) && Enabled(s, RetireHead, cap)
    ensures Inv(Next(s, RetireHead), cap)
  {
    var n := Next(s, RetireHead);
    var head := s.rob[0];
    forall o | o in n.aux
      ensures o in n.rob && OnTime(n, o)
    {
      assert OnTime(s, o);
    }
    assert head in s.rob;
    assert head !in s.inflight by {
      if head in s.aux {
        assert OnTime(s, head);
      }
    }
  }

  lemma CompleteKeeps(s: State, cap: nat)
    requires Inv(s, cap) && Enabled(s, CompleteAll, cap)
    ensures Inv(Next(s, CompleteAll), cap)
  {
    var n := Next(s, CompleteAll);
    forall o | o in n.aux
      ensures OnTime(n, o)
    {
      assert OnTime(s, o);
    }
  }

  lemma IssueKeeps(s: State, op: nat, lat: nat, cap: nat)
    requires Inv(s, cap) && Enabled(s, Issue(op, lat), cap)
    ensures Inv(Next(s, Issue(op, lat)), cap)
  {
    var n := Next(s, Issue(op, lat));
    forall o | o in n.aux
      ensures OnTime(n, o)
    {
      if o in s.aux {
        assert OnTime(s, o);
      }
    }
  }

  lemma StepKeeps(s: State, step: Step, cap: nat)
    requires Inv(s, cap) && Enabled(s, step, cap)
    ensures Inv(Next(s, step), cap)
  {
    match step
    case Tick => TickKeeps(s, cap);
    case RetireHead => RetireKeeps(s, cap);
    case CompleteAll => CompleteKeeps(s, cap);
    case Issue(op, lat) => IssueKeeps(s, op, lat, cap);
    case Nuke =>
    case EndRetire => OthersKeep(s, step, cap);
    case CompleteOther(_) => OthersKeep(s, step, cap);
    case Alloc(_) => OthersKeep(s, step, cap);
  }

  lemma OthersKeep(s: State, step: Step, cap: nat)
    requires Inv(s, cap) && Enabled(s, step, cap) && (step.EndRetire? || step.CompleteOther? || step.Alloc?)
    ensures Inv(Next(s, step), cap)
  {
    hide Kept, Stamped;
    var n := Next(s, step);
    forall o | o in n.aux
      ensures OnTime(n, o)
    {
      assert OnTime(s, o);
    }
  }

  /** An operation being issued is in the reorder buffer but not yet in flight, so the list has room for it. */
  lemma NeverFull(s: State, op: nat, lat: nat, cap: nat)
    requires Inv(s, cap) && Enabled(s, Issue(op, lat), cap)
    ensures |s.inflight| < cap
  {
    ElementsCount(s.inflight);
    ElementsCount(s.rob);
    var a, b := Elements(s.inflight), Elements(s.rob);
    assert op in b && op !in a;
    SubsetSize(a, b - {op});
    assert |b - {op}| == |b| - 1;
  }

  /** Runs. */
  ghost predicate IsRun(run: seq<State>, steps: seq<Step>, cap: nat) {
    && |run| == |steps| + 1 && Start(run[0])
    && forall i :: 0 <= i < |steps| ==> Enabled(run[i], steps[i], cap) && run[i + 1] == Next(run[i], steps[i])
  }

  lemma {:induction false} RunKeeps(run: seq<State>, steps: seq<Step>, cap: nat, n: nat)
    requires IsRun(run, steps, cap) && n < |run|
    ensures Inv(run[n], cap)
  {
    if n > 0 {
      RunKeeps(run, steps, cap, n - 1);
      StepKeeps(run[n - 1], steps[n - 1], cap);
    }
  }

  /** From one step to the next an operation that stays in the reorder buffer keeps the end of its latency. */
  lemma LatencyFixed(s: State, step: Step, cap: nat, o: nat)
    requires Inv(s, cap) && Enabled(s, step, cap) && o in s.aux && o in Next(s, step).rob
    ensures o in Next(s, step).aux && Next(s, step).aux[o] == s.aux[o]
  {
    if step == RetireHead {
      assert s.rob[0] in s.rob;
    }
  }

  ghost predicate StaysFrom(run: seq<State>, o: nat, i: nat, n: nat) {
    forall j :: i <= j <= n < |run| ==> o in run[j].rob
  }

  lemma RunStep(run: seq<State>, steps: seq<Step>, cap: nat, n: nat)
    requires IsRun(run, steps, cap) && n < |steps|
    ensures n + 1 < |run| && Enabled(run[n], steps[n], cap) && run[n + 1] == Next(run[n], steps[n])
    ensures Inv(run[n], cap)
  {
    RunKeeps(run, steps, cap, n);
  }

  lemma StaysLess(run: seq<State>, o: nat, i: nat, n: nat)
    requires i < n < |run| && StaysFrom(run, o, i, n)
    ensures StaysFrom(run, o, i, n - 1) && o in run[n].rob
  {
  }

  lemma {:induction false} LatencyKept(run: seq<State>, steps: seq<Step>, cap: nat, o: nat, i: nat, n: nat)
    requires IsRun(run, steps, cap) && i <= n < |run| && StaysFrom(run, o, i, n) && o in run[i].aux
    ensures o in run[n].aux && run[n].aux[o] == run[i].aux[o]
  {
    if i < n {
      assert |run| == |steps| + 1;
      hide IsRun, Inv, Enabled, Next, StaysFrom;
      StaysLess(run, o, i, n);
      LatencyKept(run, steps, cap, o, i, n - 1);
      RunStep(run, steps, cap, n - 1);
      LatencyFixed(run[n - 1], steps[n - 1], cap, o);
    }
  }

  /** Issued in cycle c with latency lat and not thrown out, an operation is in flight through cycle c + lat, released
      by that cycle's tick, and complete exactly from cycle c + lat + 1 on; and the list had room for it. */
  lemma ExactTiming(run: seq<State>, steps: seq<Step>, cap: nat, i: nat, n: nat)
    requires IsRun(run, steps, cap) && i < n < |run| && steps[i].Issue? && StaysFrom(run, steps[i].op, i, n)
    ensures var o, end := steps[i].op, run[i].cycle + steps[i].lat;
            && |run[i].inflight| < cap
            && (o in run[n].inflight <==> run[n].cycle <= end)
            && (o in run[n].due <==> end < run[n].cycle)
            && (o in run[n].complete <==>
                end + 1 < run[n].cycle || (end + 1 == run[n].cycle && run[n].phase == Execute))
  {
    var o := steps[i].op;
    RunStep(run, steps, cap, i);
    NeverFull(run[i], o, steps[i].lat, cap);
    LatencyKept(run, steps, cap, o, i + 1, n);
    RunKeeps(run, steps, cap, n);
    assert OnTime(run[n], o);
  }

  // ----- the cache's own bookkeeping --------------------------------------------------------------------------

  class FlightList {
    const inflight: SimList
    var auxCycle: map<nat, nat>
    var completeCycle: map<nat, nat>

    constructor (robSize: nat)
      ensures inflight.Valid() && fresh(inflight) && inflight.Contents() == [] && inflight.numEntries == robSize
      ensures auxCycle == completeCycle == map[]
    {
      inflight := new SimList(robSize);
      auxCycle, completeCycle := map[], map[];
    }

    /** read and write, given the latency of the access; a write takes one cycle whatever the access costs. */
    method Request(op: nat, lat: nat, write: bool, now: nat)
      requires inflight.Valid() && op != 0 && !inflight.Full()
      modifies this`auxCycle, inflight, inflight.nodes, inflight.pool[inflight.poolIdx]
      ensures inflight.Valid() && inflight.Contents() == old(inflight.Contents()) + [op]
      ensures auxCycle == old(auxCycle)[op := now + (if write then 1 else lat)]
    {
      auxCycle := auxCycle[op := (if write then 1 else lat) + now];
      inflight.Push(op);
    }

    /** One turn of the tick's loop: releases the operation the iterator stands on if its latency ends now. */
    method Visit(it: Entry, ghost k: nat, now: nat) returns (next: Entry?, ghost k': nat)
      requires inflight.Valid() && k < |inflight.nodes| && it == inflight.nodes[k]
      modifies this`completeCycle, inflight, inflight.pool, inflight.nodes
      ensures inflight.Valid() && k' <= |inflight.nodes|
      ensures next == (if k' < |inflight.nodes| then inflight.nodes[k'] else null)
      ensures forall i :: 0 <= i < |inflight.nodes| ==> inflight.nodes[i] in old(inflight.nodes)
      ensures var o := old(inflight.Contents())[k];
              if DueIn(auxCycle, now)(o)
              then completeCycle == old(completeCycle)[o := now + 1]
                   && inflight.Contents() == Cut(old(inflight.Contents()), k) && k' == k
              else completeCycle == old(completeCycle)
                   && inflight.Contents() == old(inflight.Contents()) && k' == k + 1
      ensures |inflight.nodes| - k' == |old(inflight.nodes)| - k - 1
    {
      hide *;
      var o := inflight.Get(it, k);
      DueIs(auxCycle, now, o);
      k' := k;
      if o in auxCycle && auxCycle[o] == now {
        completeCycle := completeCycle[o := auxCycle[o] + 1];
        CutInside(inflight.nodes, k);
        next := inflight.Erase(it, k);
      } else {
        next := inflight.Next(it, k);
        k' := k + 1;
      }
    }

    /** Releases what ends in this cycle, walking the list once. */
    method Tick(now: nat)
      requires inflight.Valid()
      modifies this`completeCycle, inflight, inflight.pool, inflight.nodes
      ensures inflight.Valid()
      ensures inflight.Contents() == Kept(old(inflight.Contents()), DueIn(auxCycle, now))
      ensures completeCycle == Stamped(old(completeCycle), old(inflight.Contents()), auxCycle, now)
    {
      hide *;
      var it := inflight.Begin();
      ghost var all := inflight.Contents();
      ghost var p := DueIn(auxCycle, now);
      ghost var k: nat := 0;
      ghost var visited: seq<nat> := [];
      SplitStart(all, p);
      StampedNone(completeCycle, auxCycle, now);
      while it != null
        invariant inflight.Valid() && k <= |inflight.nodes|
        invariant it == (if k < |inflight.nodes| then inflight.nodes[k] else null)
        invariant forall i :: 0 <= i < |inflight.nodes| ==> inflight.nodes[i] in old(inflight.nodes)
        invariant Split(all, visited, Kept(visited, p), inflight.Contents(), k)
        invariant completeCycle == Stamped(old(completeCycle), visited, auxCycle, now)
        decreases |inflight.nodes| - k
      {
        ghost var o := inflight.Contents()[k];
        KeptStep(visited, o, p);
        SplitStep(all, visited, Kept(visited, p), inflight.Contents(), k);
        StampedStep(old(completeCycle), visited, o, auxCycle, now);
        it, k := Visit(it, k, now);
        visited := visited + [o];
      }
      SplitDone(all, visited, Kept(visited, p), inflight.Contents(), k);
    }

    method NukeInflight()
      requires inflight.Valid()
      modifies inflight, inflight.pool, inflight.entries[..]
      ensures inflight.Valid() && inflight.Contents() == []
    {
      inflight.Clear();
    }
  }

  lemma DueIs(aux: map<nat, nat>, cycle: nat, o: nat)
    ensures DueIn(aux, cycle)(o) <==> o in aux && aux[o] == cycle
  {
  }

  lemma StampedNone(due: map<nat, nat>, aux: map<nat, nat>, cycle: nat)
    ensures Stamped(due, [], aux, cycle) == due
  {
  }

  lemma StampedStep(due: map<nat, nat>, ops: seq<nat>, o: nat, aux: map<nat, nat>, cycle: nat)
    ensures Stamped(due, ops + [o], aux, cycle) ==
            var stamped := Stamped(due, ops, aux, cycle);
            if DueIn(aux, cycle)(o) then stamped[o := cycle + 1] else stamped
  {
  }
}
