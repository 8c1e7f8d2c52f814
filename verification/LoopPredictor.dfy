/** The loop predictor: it learns the trip count of a loop branch and then predicts its exits. */
module LoopPredictor {
  import opened Powers

  /** Counters are 32 bits wide. */
  const WORDS: nat := 0x1_0000_0000

  function Inc(x: nat): (r: nat)
    ensures r < WORDS
  {
    (x + 1) % WORDS
  }

  datatype State = Invalid | Training | Locked

  datatype Entry = Entry(state: State, count: nat, limit: nat, pc: nat)

  const CLEARED := Entry(Invalid, 0, 0, 0)

  // ----- one entry ----------------------------------------------------------------------------------------

  predicate Usable(e: Entry, pc: nat) {
    e.pc == pc && e.state == Locked
  }

  /** Predicts not taken when the count has reached the limit, and moves the count on. */
  function Predicted(e: Entry): (r: (Entry, bool)) {
    if e.count == e.limit then (e.(count := 0), false) else (e.(count := Inc(e.count)), true)
  }

  function Updated(e: Entry, pc: nat, taken: bool, prediction: bool): Entry {
    var c := if e.pc != pc then CLEARED else e;
    match c.state
    case Invalid => c.(pc := pc, state := Training, limit := 1)
    case Training => if taken then c.(limit := Inc(c.limit)) else c.(state := Locked)
    case Locked => if taken != prediction then c.(state := Invalid) else c
  }

  /** A branch: its address, its outcome, and what the other predictors say when this one cannot. */
  datatype Branch = Branch(pc: nat, taken: bool, other: bool)

  /** A prediction followed by its update. */
  function Served(e: Entry, b: Branch): Entry {
    if Usable(e, b.pc) then var (e', p) := Predicted(e); Updated(e', b.pc, b.taken, p)
    else Updated(e, b.pc, b.taken, b.other)
  }

  function Run(e: Entry, bs: seq<Branch>): Entry {
    if bs == [] then e else Served(Run(e, bs[..|bs| - 1]), bs[|bs| - 1])
  }

  lemma RunStep(e: Entry, bs: seq<Branch>, b: Branch)
    ensures Run(e, bs + [b]) == Served(Run(e, bs), b)
  {
    assert (bs + [b])[..|bs|] == bs;
  }

  lemma ServedTraining(count: nat, limit: nat, b: Branch)
    ensures Served(Entry(Training, count, limit, b.pc), b) ==
            if b.taken then Entry(Training, count, Inc(limit), b.pc) else Entry(Locked, count, limit, b.pc)
  {
  }

  lemma ServedLocked(count: nat, limit: nat, b: Branch)
    requires b.taken == (count != limit)
    ensures Served(Entry(Locked, count, limit, b.pc), b) ==
            Entry(Locked, if count == limit then 0 else Inc(count), limit, b.pc)
  {
  }

  lemma IncMod(n: nat)
    ensures Inc(n % WORDS) == (n + 1) % WORDS
  {
  }

  // ----- learning a loop ------------------------------------------------------------------------------------

  /** The outcome of visit n of a branch taken k times and then not taken, over and over. */
  function Outcome(k: nat, n: nat): bool {
    Rem(n, k + 1) != k
  }

  ghost predicate IsLoop(bs: seq<Branch>, pc: nat, k: nat) {
    forall n :: 0 <= n < |bs| ==> bs[n].pc == pc && bs[n].taken == Outcome(k, n)
  }

  /** The entry predicts the next visit, and rightly. */
  predicate Foresees(e: Entry, pc: nat, k: nat, n: nat) {
    Usable(e, pc) && Predicted(e).1 == Outcome(k, n)
  }

  lemma RemStep(n: nat, m: nat)
    requires m > 0
    ensures Rem(n + 1, m) == if Rem(n, m) + 1 == m then 0 else Rem(n, m) + 1
  {
    hide Quot, Rem;
    DivMod(n, m);
    var q, r := Quot(n, m), Rem(n, m);
    if r + 1 == m {
      assert (q + 1) * m == q * m + m;
      QuotientUnique(n + 1, m, q + 1, 0);
    } else {
      QuotientUnique(n + 1, m, q, r + 1);
    }
  }

  lemma FirstPeriod(n: nat, m: nat)
    requires n < m
    ensures Rem(n, m) == n
  {
    QuotientUnique(n, m, 0, n);
  }

  /** The count an entry starts training with: it is cleared only if the entry belonged to another branch. */
  function StartCount(e: Entry, pc: nat): nat {
    if e.pc != pc then 0 else e.count
  }

  ghost predicate Untrained(e: Entry, pc: nat) {
    (e.pc != pc || e.state == Invalid) && e.count < WORDS
  }

  lemma ServedUntrained(e: Entry, b: Branch)
    requires Untrained(e, b.pc)
    ensures Served(e, b) == Entry(Training, StartCount(e, b.pc), 1, b.pc)
  {
  }

  /** During the first period the limit counts the visits; it ends locked, with the count it started with. */
  lemma {:induction false} Trains(e: Entry, pc: nat, k: nat, bs: seq<Branch>)
    requires Untrained(e, pc) && IsLoop(bs, pc, k) && k >= 1 && 0 < |bs| <= k + 1
    ensures Run(e, bs) == if |bs| <= k then Entry(Training, StartCount(e, pc), |bs| % WORDS, pc)
                          else Entry(Locked, StartCount(e, pc), k % WORDS, pc)
  {
    var n := |bs| - 1;
    FirstPeriod(n, k + 1);
    assert bs == bs[..n] + [bs[n]];
    RunStep(e, bs[..n], bs[n]);
    if n > 0 {
      hide Run, Served, Inc, Rem;
      Trains(e, pc, k, bs[..n]);
      ServedTraining(StartCount(e, pc), n % WORDS, bs[n]);
      IncMod(n);
    } else {
      assert bs[..n] == [];
      ServedUntrained(e, bs[0]);
      hide Served;
    }
  }

  /** Once locked on the right limit with a zero count, the count follows the visit and every prediction is right. */
  lemma {:induction false} Predicts(e: Entry, pc: nat, k: nat, bs: seq<Branch>)
    requires Untrained(e, pc) && StartCount(e, pc) == 0 && IsLoop(bs, pc, k) && 1 <= k < WORDS && |bs| > k
    ensures Run(e, bs) == Entry(Locked, Rem(|bs|, k + 1), k, pc)
    ensures Foresees(Run(e, bs), pc, k, |bs|)
  {
    hide Run, Served, Rem, IsLoop, Inc;
    var n := |bs| - 1;
    RemStep(n, k + 1);
    if n == k {
      Trains(e, pc, k, bs);
      FirstPeriod(k, k + 1);
    } else {
      assert bs == bs[..n] + [bs[n]];
      RunStep(e, bs[..n], bs[n]);
      LoopInit(bs, pc, k);
      Predicts(e, pc, k, bs[..n]);
      ServedLocked(Rem(n, k + 1), k, bs[n]);
      FirstInc(Rem(n, k + 1));
    }
  }

  lemma LoopInit(bs: seq<Branch>, pc: nat, k: nat)
    requires IsLoop(bs, pc, k) && bs != []
    ensures IsLoop(bs[..|bs| - 1], pc, k)
    ensures bs[|bs| - 1].pc == pc && bs[|bs| - 1].taken == Outcome(k, |bs| - 1)
  {
  }

  lemma FirstInc(x: nat)
    ensures x + 1 < WORDS ==> Inc(x) == x + 1
  {
  }

  function LoopTrace(pc: nat, k: nat, n: nat): (bs: seq<Branch>)
    ensures IsLoop(bs, pc, k) && |bs| == n
  {
    seq(n, i requires 0 <= i => Branch(pc, Outcome(k, i), false))
  }

  /** From the first period on, every visit is predicted and rightly so. */
  ghost predicate Learns(e: Entry, pc: nat, k: nat) {
    forall bs :: IsLoop(bs, pc, k) && |bs| > k ==> Foresees(Run(e, bs), pc, k, |bs|)
  }

  /** The first visit after locking on which the entry predicts an exit. */
  function FirstExit(start: nat, limit: nat): (d: nat)
    requires start < WORDS && limit < WORDS
    ensures d < WORDS && (start + d) % WORDS == limit
  {
    if limit >= start then limit - start else limit + WORDS - start
  }

  /** Up to its first predicted exit a locked entry predicts taken and counts, so long as the branch agrees. */
  lemma {:induction false} CountsUp(e: Entry, pc: nat, k: nat, j: nat)
    requires Untrained(e, pc) && k >= 1 && j <= k && j <= FirstExit(StartCount(e, pc), k % WORDS)
    ensures Run(e, LoopTrace(pc, k, k + 1 + j)) == Entry(Locked, (StartCount(e, pc) + j) % WORDS, k % WORDS, pc)
    decreases j
  {
    hide Run, Served, Rem, IsLoop, Inc, Untrained, FirstExit;
    StartSmall(e, pc);
    var bs := LoopTrace(pc, k, k + 1 + j);
    if j == 0 {
      Trains(e, pc, k, bs);
    } else {
      var c := (StartCount(e, pc) + j - 1) % WORDS;
      CountsUp(e, pc, k, j - 1);
      SecondPeriod(k, j - 1);
      assert k + 1 + (j - 1) == k + j;
      assert bs == LoopTrace(pc, k, k + j) + [bs[k + j]];
      RunStep(e, LoopTrace(pc, k, k + j), bs[k + j]);
      NotYet(StartCount(e, pc), k % WORDS, j - 1);
      ServedLocked(c, k % WORDS, bs[k + j]);
      IncMod(StartCount(e, pc) + j - 1);
    }
  }

  lemma StartSmall(e: Entry, pc: nat)
    requires Untrained(e, pc)
    ensures StartCount(e, pc) < WORDS && StartCount(e, pc) % WORDS == StartCount(e, pc)
  {
  }

  lemma NotYet(start: nat, limit: nat, j: nat)
    requires start < WORDS && limit < WORDS && j < FirstExit(start, limit)
    ensures (start + j) % WORDS != limit
  {
  }

  lemma SecondPeriod(k: nat, j: nat)
    requires j <= k
    ensures Rem(k + 1 + j, k + 1) == j
  {
    QuotientUnique(k + 1 + j, k + 1, 1, j);
  }

  /** The loop is learned exactly when its trip count is at least one and fits the counter, and training started from
      a zero count. An entry that lost its lock keeps its count, and mispredicts the period after it locks again. */
  lemma LoopLearningExact(e: Entry, pc: nat, k: nat)
    requires Untrained(e, pc)
    ensures Learns(e, pc, k) <==> 1 <= k < WORDS && StartCount(e, pc) == 0
  {
    if 1 <= k < WORDS && StartCount(e, pc) == 0 {
      forall bs | IsLoop(bs, pc, k) && |bs| > k
        ensures Foresees(Run(e, bs), pc, k, |bs|)
      {
        Predicts(e, pc, k, bs);
      }
    } else {
      var bs := Mistake(e, pc, k);
    }
  }

  lemma Mistake(e: Entry, pc: nat, k: nat) returns (bs: seq<Branch>)
    requires Untrained(e, pc) && !(1 <= k < WORDS && StartCount(e, pc) == 0)
    ensures IsLoop(bs, pc, k) && |bs| > k && !Foresees(Run(e, bs), pc, k, |bs|)
  {
    if k == 0 {
      bs := LoopTrace(pc, 0, 1);
      assert bs[..0] == [];
    } else {
      hide Untrained, Foresees;
      StartSmall(e, pc);
      var j := FirstTrouble(StartCount(e, pc), k);
      bs := LoopTrace(pc, k, k + 1 + j);
      CountsUp(e, pc, k, j);
      NotForeseen((StartCount(e, pc) + j) % WORDS, k % WORDS, pc, k, j);
    }
  }

  /** The earlier of the first predicted exit and the actual one: by then only one of the two has come. */
  lemma FirstTrouble(start: nat, k: nat) returns (j: nat)
    requires start < WORDS && k >= 1 && !(k < WORDS && start == 0)
    ensures j <= k && j <= FirstExit(start, k % WORDS)
    ensures (start + j) % WORDS == k % WORDS <==> j != k
  {
    var d := FirstExit(start, k % WORDS);
    j := if d < k then d else k;
    if d >= k {
      SmallMod(k, start);
    }
  }

  lemma NotForeseen(count: nat, limit: nat, pc: nat, k: nat, j: nat)
    requires j <= k && (count == limit <==> j != k)
    ensures !Foresees(Entry(Locked, count, limit, pc), pc, k, k + 1 + j)
  {
    SecondPeriod(k, j);
    hide Rem;
  }

  lemma SmallMod(k: nat, start: nat)
    requires k < WORDS && start < WORDS && start != 0
    ensures (start + k) % WORDS != k % WORDS
  {
  }

  function Visit(pc: nat, taken: bool): Branch {
    Branch(pc, taken, false)
  }

  /** An entry trains on two turns and an exit; the next visit exits at once, against a prediction that has already
      counted a turn. */
  function StaleTrace(pc: nat): seq<Branch> {
    [Visit(pc, true), Visit(pc, true), Visit(pc, false), Visit(pc, false)]
  }

  /** From the reset state those four visits lead to an entry that has lost its lock but kept its count: whatever loop
      follows, it mispredicts once it has locked again. */
  lemma StaleCountReached(pc: nat, k: nat)
    ensures Run(CLEARED, StaleTrace(pc)) == Entry(Invalid, 1, 2, pc)
    ensures !Learns(Run(CLEARED, StaleTrace(pc)), pc, k)
  {
    var bs := StaleTrace(pc);
    var none: seq<Branch> := [];
    assert bs == none + [bs[0]] + [bs[1]] + [bs[2]] + [bs[3]];
    RunStep(CLEARED, none, bs[0]);
    RunStep(CLEARED, none + [bs[0]], bs[1]);
    RunStep(CLEARED, none + [bs[0]] + [bs[1]], bs[2]);
    RunStep(CLEARED, none + [bs[0]] + [bs[1]] + [bs[2]], bs[3]);
    hide Run;
    assert Run(CLEARED, none) == CLEARED by { RunNone(CLEARED); }
    LoopLearningExact(Run(CLEARED, bs), pc, k);
  }

  lemma RunNone(e: Entry)
    ensures Run(e, []) == e
  {
  }

  // ----- losing the lock ------------------------------------------------------------------------------------------

  /** A locked entry is still locked after a visit of its branch exactly if it predicted the outcome; it keeps its
      limit, and once it has lost its lock the branch is no longer predicted. */
  lemma LockKeptExactly(e: Entry, b: Branch)
    requires Usable(e, b.pc)
    ensures Usable(Served(e, b), b.pc) <==> Predicted(e).1 == b.taken
    ensures Predicted(e).1 != b.taken ==> Served(e, b).state == Invalid
    ensures Served(e, b).limit == e.limit && Served(e, b).pc == e.pc
  {
  }

  /** What a locked entry predicts, and where its count goes, whatever the branch does. */
  lemma PredictedExactly(e: Entry, b: Branch)
    requires Usable(e, b.pc)
    ensures Predicted(e).1 <==> e.count != e.limit
    ensures Served(e, b).count == if e.count == e.limit then 0 else (e.count + 1) % WORDS
  {
  }

  /** A period of a loop: m visits taken and one not taken. */
  ghost predicate IsPeriod(bs: seq<Branch>, pc: nat, m: nat) {
    |bs| == m + 1 && forall n :: 0 <= n <= m ==> bs[n].pc == pc && bs[n].taken == (n < m)
  }

  /** As long as neither the loop nor its former trip count is over, the entry counts along. */
  lemma {:induction false} CountsAlong(bs: seq<Branch>, pc: nat, k: nat, m: nat, n: nat)
    requires IsPeriod(bs, pc, m) && k < WORDS && n <= m && n <= k
    ensures Run(Entry(Locked, 0, k, pc), bs[..n]) == Entry(Locked, n, k, pc)
  {
    if n > 0 {
      hide Run, Served, Inc;
      CountsAlong(bs, pc, k, m, n - 1);
      assert bs[..n] == bs[..n - 1] + [bs[n - 1]];
      RunStep(Entry(Locked, 0, k, pc), bs[..n - 1], bs[n - 1]);
      ServedLocked(n - 1, k, bs[n - 1]);
      FirstInc(n - 1);
    } else {
      assert bs[..0] == [];
    }
  }

  /** An entry locked on k that meets a period of m visits taken keeps its lock through it exactly if m is k; otherwise
      it loses the lock in that period, at the first visit that differs: the early exit or the missing one. */
  lemma ChangedLoopUnlocks(bs: seq<Branch>, pc: nat, k: nat, m: nat)
    requires IsPeriod(bs, pc, m) && k < WORDS
    ensures var n := if m < k then m else k; var e := Entry(Locked, 0, k, pc);
            && (forall i :: 0 <= i <= n ==> Run(e, bs[..i]).state == Locked)
            && (m != k ==> Run(e, bs[..n + 1]).state == Invalid)
            && (m == k ==> Run(e, bs) == e)
  {
    hide Run, Served;
    var n := if m < k then m else k;
    var e := Entry(Locked, 0, k, pc);
    forall i | 0 <= i <= n
      ensures Run(e, bs[..i]).state == Locked
    {
      CountsAlong(bs, pc, k, m, i);
    }
    CountsAlong(bs, pc, k, m, n);
    assert bs[..n + 1] == bs[..n] + [bs[n]];
    RunStep(e, bs[..n], bs[n]);
    LockKeptExactly(Entry(Locked, n, k, pc), bs[n]);
    if m == k {
      ServedLocked(k, k, bs[k]);
      assert bs[..n + 1] == bs;
    }
  }

  // ----- the table ------------------------------------------------------------------------------------------

  function Index(pc: nat, n: nat): (i: nat)
    requires n > 0
    ensures i < n
  {
    Rem(Quot(pc, 4), n)
  }

  /** Two branches share a slot exactly if they are a multiple of n words apart. */
  lemma SlotsShared(a: nat, b: nat, n: nat)
    requires n > 0 && a % 4 == 0 && b % 4 == 0
    ensures Index(a, n) == Index(b, n) <==> exists d: int :: a == b + 4 * Times(n, d)
  {
    hide Quot, Rem;
    var x, y := Quot(a, 4), Quot(b, 4);
    Fours(a);
    Fours(b);
    DivMod(x, n);
    DivMod(y, n);
    var p, q := Quot(x, n), Quot(y, n);
    if Index(a, n) == Index(b, n) {
      assert Times(n, p - q) == p * n - q * n;
      assert a == b + 4 * Times(n, p - q);
    }
    if d: int :| a == b + 4 * Times(n, d) {
      assert x == y + Times(n, d);
      assert Times(n, q + d) == q * n + Times(n, d);
      assert q + d >= 0 by { NotNegative(n, q + d, x, Rem(y, n)); }
      assert Times(n, q + d) == (q + d) * n;
      QuotientUnique(x, n, q + d, Rem(y, n));
    }
  }

  function Times(n: nat, d: int): int {
    n * d
  }

  lemma Fours(a: nat)
    requires a % 4 == 0
    ensures a == 4 * Quot(a, 4)
  {
  }

  lemma NotNegative(n: nat, d: int, x: nat, r: nat)
    requires n > 0 && x == Times(n, d) + r && r < n
    ensures d >= 0
  {
    assert d < 0 ==> n * d <= n * (-1);
  }

  function RunTable(arr: seq<Entry>, bs: seq<Branch>): (r: seq<Entry>)
    requires |arr| > 0
    ensures |r| == |arr|
  {
    if bs == [] then arr
    else
      var t := RunTable(arr, bs[..|bs| - 1]);
      var b := bs[|bs| - 1];
      t[Index(b.pc, |arr|) := Served(t[Index(b.pc, |arr|)], b)]
  }

  /** The branches of a trace that use slot i. */
  function AtSlot(bs: seq<Branch>, n: nat, i: nat): seq<Branch>
    requires n > 0
  {
    if bs == [] then []
    else
      var b := bs[|bs| - 1];
      AtSlot(bs[..|bs| - 1], n, i) + (if Index(b.pc, n) == i then [b] else [])
  }

  lemma {:induction false} SlotsApart(arr: seq<Entry>, bs: seq<Branch>, i: nat)
    requires i < |arr|
    ensures RunTable(arr, bs)[i] == Run(arr[i], AtSlot(bs, |arr|, i))
  {
    if bs != [] {
      hide Run, Served, Index;
      var b := bs[|bs| - 1];
      SlotsApart(arr, bs[..|bs| - 1], i);
      RunStep(arr[i], AtSlot(bs[..|bs| - 1], |arr|, i), b);
      assert AtSlot(bs[..|bs| - 1], |arr|, i) + [] == AtSlot(bs[..|bs| - 1], |arr|, i);
    }
  }

  /** Whatever other branches run in between, as long as none shares the slot: after the first period the branch is
      always predicted, rightly, and its entry never unlocks. */
  lemma LoopLearning(arr: seq<Entry>, bs: seq<Branch>, pc: nat, k: nat)
    requires |arr| > 0 && 1 <= k < WORDS
    requires var i := Index(pc, |arr|);
             Untrained(arr[i], pc) && StartCount(arr[i], pc) == 0
             && IsLoop(AtSlot(bs, |arr|, i), pc, k) && |AtSlot(bs, |arr|, i)| > k
    ensures var i := Index(pc, |arr|);
            var e := RunTable(arr, bs)[i];
            e.state == Locked && e.limit == k && Foresees(e, pc, k, |AtSlot(bs, |arr|, i)|)
  {
    var i := Index(pc, |arr|);
    SlotsApart(arr, bs, i);
    Predicts(arr[i], pc, k, AtSlot(bs, |arr|, i));
  }

  class Predictor {
    const arr: array<Entry>

    ghost predicate Valid() {
      exists n :: arr.Length == Pow2(n)
    }

    constructor (n: nat)
      ensures Valid() && arr.Length == Pow2(n) && fresh(arr)
      ensures arr[..] == seq(Pow2(n), _ => CLEARED)
    {
      arr := new Entry[Pow2(n)](_ => CLEARED);
      new;
      assert forall k :: 0 <= k < arr.Length ==> arr[k] == CLEARED;
    }

    predicate ValidLoopBranch(pc: nat)
      requires Valid()
      reads arr
      ensures ValidLoopBranch(pc) <==> Usable(arr[Index(pc, arr.Length)], pc)
    {
      var e := arr[Index(pc, arr.Length)];
      e.pc == pc && e.state == Locked
    }

    method Predict(pc: nat) returns (p: bool, count: nat)
      requires Valid() && ValidLoopBranch(pc)
      modifies arr
      ensures var i := Index(pc, arr.Length);
              && arr[..] == old(arr[..])[i := Predicted(old(arr[i])).0]
              && p == Predicted(old(arr[i])).1 && count == old(arr[i]).count
    {
      var i := Index(pc, arr.Length);
      p := true;
      count := arr[i].count;
      if arr[i].count == arr[i].limit {
        p := false;
        arr[i] := arr[i].(count := 0);
      } else {
        arr[i] := arr[i].(count := Inc(arr[i].count));
      }
    }

    method Update(pc: nat, taken: bool, prediction: bool)
      requires Valid()
      modifies arr
      ensures var i := Index(pc, arr.Length);
              arr[..] == old(arr[..])[i := Updated(old(arr[i]), pc, taken, prediction)]
    {
      var i := Index(pc, arr.Length);
      if arr[i].pc != pc {
        arr[i] := CLEARED;
      }
      match arr[i].state {
        case Invalid =>
          arr[i] := arr[i].(pc := pc, state := Training, limit := 1);
        case Training =>
          if !taken {
            arr[i] := arr[i].(state := Locked);
          } else {
            arr[i] := arr[i].(limit := Inc(arr[i].limit));
          }
        case Locked =>
          if taken != prediction {
            arr[i] := arr[i].(state := Invalid);
          }
      }
    }

    /** Serves a trace, each prediction followed by its update. */
    method Serve(bs: seq<Branch>)
      requires Valid()
      modifies arr
      ensures arr[..] == RunTable(old(arr[..]), bs)
    {
      var j := 0;
      while j < |bs|
        invariant j <= |bs| && arr[..] == RunTable(old(arr[..]), bs[..j])
      {
        var b := bs[j];
        var p := b.other;
        if ValidLoopBranch(b.pc) {
          var q, _ := Predict(b.pc);
          p := q;
        }
        Update(b.pc, b.taken, p);
        assert bs[..j + 1][..j] == bs[..j];
        j := j + 1;
      }
      assert bs[..j] == bs;
    }
  }
}
