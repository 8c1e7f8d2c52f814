/** The oldest op can always move: the machine never deadlocks on an operand. */
module Progress {
  import opened Core
  import opened Renaming
  import opened Dataflow
  import opened Reachability

  lemma SourceValid(c: State, own: seq<Owner>, rats: seq<seq<nat>>, i: nat, k: nat)
    requires Owned(View(c), own) && Entries(View(c), own, rats) && SrcsOk(c.rob, rats) && OpsOk(false, c)
        && RetiredOk(c)
    requires i < |c.rob| && k < |c.rob[i].srcs| && |rats[i]| == |c.rat| == |c.ratR|
    requires forall m :: 0 <= m < i ==> c.rob[m].stage == Complete && !c.rob[m].loadExc
    ensures c.rob[i].srcs[k] < |c.valid| && c.valid[c.rob[i].srcs[k]]
  {
    hide Executed, OpWf;
    var t := View(c);
    assert SrcsFrom(rats[i], c.rob[i]);
    var a, p := c.rob[i].inst.srcs[k], c.rob[i].srcs[k];
    assert EntryOk(t, own, i, a, p);
    assert OwnerOk(t, p, own[p]);
    if own[p].InFlight? {
      var m := own[p].id - t.head;
      assert OpOk(false, |c.rat|, c.prf, c.valid, c.mem, c.rob[m]);
      assert t.log[m] == c.rob[m].dests;
    }
  }

  /** The oldest op that has not finished has all its operands, unless an older load is flagged. */
  lemma OldestIsReady(sys: Sys, c: State, i: nat)
    requires Reachable(sys, c) && i < |c.rob|
    requires forall m :: 0 <= m < i ==> c.rob[m].stage == Complete && !c.rob[m].loadExc
    ensures ReadyIn(c.valid, c.rob[i])
  {
    hide Reachable, Structured, Owned, Entries, SrcsOk, OpsOk, RetiredOk;
    ReachableStructured(sys, c);
    var own, rats := ReadyTables(sys, c);
    forall k | 0 <= k < |c.rob[i].srcs|
      ensures c.rob[i].srcs[k] < |c.valid| && c.valid[c.rob[i].srcs[k]]
    {
      SourceValid(c, own, rats, i, k);
    }
  }

  lemma ReadyTables(sys: Sys, c: State) returns (own: seq<Owner>, rats: seq<seq<nat>>)
    requires Structured(sys, c)
    ensures Owned(View(c), own) && Entries(View(c), own, rats) && SrcsOk(c.rob, rats) && OpsOk(false, c) && RetiredOk(c)
    ensures |rats| == |c.rob| + 1 && |c.ratR| == |c.rat| && forall i :: 0 <= i < |rats| ==> |rats[i]| == |c.rat|
  {
    hide Prevs, Owned, BitsOwned, Latest, OpsOk, SrcsOk, TableOk, RetiredOk;
    own, rats :| DataInv(false, sys, c, own, rats);
  }

  /** A finished branch or jump alone in the reorder buffer, its delay slot still to be allocated. */
  ghost predicate AwaitsSlot(rob: seq<Op>) {
    |rob| == 1 && rob[0].stage == Complete && rob[0].hasDelay
  }

  /** With anything in flight, either the retire stage acts, or one of the two oldest ops can execute or complete, or
      the head waits for its delay slot to be allocated. */
  lemma NoDeadlock(sys: Sys, c: State) returns (i: nat)
    requires Reachable(sys, c) && |c.rob| > 0
    ensures i < 2
    ensures || !Decide(c.rob).Stall?
            || AwaitsSlot(c.rob)
            || (i < |c.rob| && c.rob[i].stage == Waiting && ReadyIn(c.valid, c.rob[i]))
            || (i < |c.rob| && c.rob[i].stage == Issued)
  {
    hide Reachable, Structured, ReadyIn;
    ReachableStructured(sys, c);
    HeadFlags(sys, c);
    i := if c.rob[0].stage == Complete then 1 else 0;
    if i < |c.rob| && Decide(c.rob).Stall? && c.rob[i].stage == Waiting {
      OldestIsReady(sys, c, i);
    }
  }
}
