/** A chain of set-associative levels: indexing, the access that walks down the chain on misses, its latency, and the
    balance of the counters between levels. */
module CacheChain {
  import opened Basics
  import opened Lru
  import opened Powers
  import opened CacheSets

  // ----- indexing ---------------------------------------------------------------------------------------

  /** Line bytes and sets are powers of two, given by their logarithms. */
  datatype Geometry = Geometry(lnLine: nat, lnSets: nat, assoc: nat, latency: nat) {
    function LineBytes(): (r: nat) ensures r > 0 { Pow2(lnLine) }
    function NumSets(): (r: nat) ensures r > 0 { Pow2(lnSets) }
  }

  /** Set, tag and byte offset of an address: shifts and masks by powers of two. */
  function SetOf(g: Geometry, addr: nat): (r: nat)
    ensures r < g.NumSets()
  {
    Rem(Quot(addr, g.LineBytes()), g.NumSets())
  }

  function TagOf(g: Geometry, addr: nat): nat {
    Quot(addr, Pow2(g.lnSets + g.lnLine))
  }

  function OffsetOf(g: Geometry, addr: nat): (r: nat)
    ensures r < g.LineBytes()
  {
    Rem(addr, g.LineBytes())
  }

  /** An address is its tag, set and offset put back together, and two addresses share tag and set exactly if they
      lie in the same line. */
  lemma IndexInjective(g: Geometry, a: nat, b: nat)
    ensures a == (TagOf(g, a) * g.NumSets() + SetOf(g, a)) * g.LineBytes() + OffsetOf(g, a)
    ensures TagOf(g, a) == TagOf(g, b) && SetOf(g, a) == SetOf(g, b) <==>
            Quot(a, g.LineBytes()) == Quot(b, g.LineBytes())
  {
    TagIsQuotient(g, a);
    TagIsQuotient(g, b);
  }

  lemma TagIsQuotient(g: Geometry, a: nat)
    ensures TagOf(g, a) == Quot(Quot(a, g.LineBytes()), g.NumSets())
    ensures Quot(a, g.LineBytes()) == TagOf(g, a) * g.NumSets() + SetOf(g, a)
    ensures a == Quot(a, g.LineBytes()) * g.LineBytes() + OffsetOf(g, a)
  {
    hide Pow2, Quot, Rem;
    ShiftTwice(a, g.lnSets, g.lnLine);
    DivMod(a, g.LineBytes());
    DivMod(Quot(a, g.LineBytes()), g.NumSets());
  }

  // ----- one access -------------------------------------------------------------------------------------

  /** A level's sets and its counters, reads and writes apart. */
  datatype Level = Level(g: Geometry, sets: seq<seq<Tag>>, readHits: nat, readMisses: nat, writeHits: nat,
      writeMisses: nat) {
    ghost predicate Wf() {
      && g.assoc > 0 && |sets| == g.NumSets()
      && forall i :: 0 <= i < |sets| ==> Distinct(sets[i]) && |sets[i]| <= g.assoc
    }

    predicate Hits(addr: nat)
      requires |sets| == g.NumSets()
    {
      TagOf(g, addr) in sets[SetOf(g, addr)]
    }

    function Served(addr: nat, write: bool): Level
      requires |sets| == g.NumSets()
    {
      var w := SetOf(g, addr);
      var hit := Hits(addr);
      this.(sets := sets[w := Touch(g.assoc, sets[w], TagOf(g, addr))],
            readHits := readHits + (if hit && !write then 1 else 0),
            readMisses := readMisses + (if !hit && !write then 1 else 0),
            writeHits := writeHits + (if hit && write then 1 else 0),
            writeMisses := writeMisses + (if !hit && write then 1 else 0))
    }

    /** The access does not make a set of one way drop its only entry. */
    predicate Keeps(addr: nat)
      requires |sets| == g.NumSets()
    {
      g.assoc >= 2 || Hits(addr) || sets[SetOf(g, addr)] == []
    }

    /** The address asked of the next level: the start of the line. */
    function Reload(addr: nat): nat {
      Quot(addr, g.LineBytes()) * g.LineBytes()
    }
  }

  ghost predicate WfChain(chain: seq<Level>) {
    forall i :: 0 <= i < |chain| ==> chain[i].Wf()
  }

  /** The levels after an access entering at the front, and the latency it returns. */
  ghost function AccessChain(chain: seq<Level>, addr: nat, write: bool, memLatency: nat): (r: (seq<Level>, nat))
    requires WfChain(chain)
    ensures |r.0| == |chain|
  {
    if chain == [] then ([], memLatency)
    else
      var top := chain[0];
      if top.Hits(addr) then ([top.Served(addr, write)] + chain[1..], top.g.latency)
      else
        var (rest, lat) := AccessChain(chain[1..], top.Reload(addr), write, memLatency);
        ([top.Served(addr, write)] + rest, top.g.latency + lat)
  }

  lemma KeepsUnfolds(chain: seq<Level>, addr: nat)
    requires WfChain(chain) && |chain| > 0
    ensures chain[0].Wf() && WfChain(chain[1..])
    ensures ChainKeeps(chain, addr) <==>
            chain[0].Keeps(addr) && (chain[0].Hits(addr) || ChainKeeps(chain[1..], chain[0].Reload(addr)))
    ensures ChainKeeps([], addr)
  {
  }

  /** No level the access visits has to drop the only entry of a set. */
  ghost predicate ChainKeeps(chain: seq<Level>, addr: nat)
    requires WfChain(chain)
  {
    chain == [] ||
    (chain[0].Keeps(addr) && (chain[0].Hits(addr) || ChainKeeps(chain[1..], chain[0].Reload(addr))))
  }

  lemma ServedWf(l: Level, addr: nat, write: bool)
    requires l.Wf()
    ensures l.Served(addr, write).Wf()
  {
    TouchKeeps(l.g.assoc, l.sets[SetOf(l.g, addr)], TagOf(l.g, addr));
  }

  lemma {:induction false} AccessKeepsWf(chain: seq<Level>, addr: nat, write: bool, memLatency: nat)
    requires WfChain(chain)
    ensures WfChain(AccessChain(chain, addr, write, memLatency).0)
  {
    if chain != [] {
      ServedWf(chain[0], addr, write);
      if !chain[0].Hits(addr) {
        AccessKeepsWf(chain[1..], chain[0].Reload(addr), write, memLatency);
      }
    }
  }

  // ----- latency ------------------------------------------------------------------------------------------

  /** The level that answers: the first that hits, or one past the last. */
  ghost function Depth(chain: seq<Level>, addr: nat): (d: nat)
    requires WfChain(chain)
    ensures d <= |chain|
  {
    if chain == [] then 0
    else if chain[0].Hits(addr) then 0
    else 1 + Depth(chain[1..], chain[0].Reload(addr))
  }

  function SumLatency(chain: seq<Level>): nat {
    if chain == [] then 0 else chain[0].g.latency + SumLatency(chain[1..])
  }

  /** The latency is that of the levels visited, plus the memory's exactly when every level misses. */
  lemma {:induction false} LatencyIsVisited(chain: seq<Level>, addr: nat, write: bool, memLatency: nat)
    requires WfChain(chain)
    ensures var d := Depth(chain, addr);
            AccessChain(chain, addr, write, memLatency).1 ==
            if d == |chain| then SumLatency(chain) + memLatency else SumLatency(chain[..d + 1])
  {
    if chain != [] {
      if chain[0].Hits(addr) {
        assert chain[..1][1..] == [];
      } else {
        var rest := chain[1..];
        var d := Depth(rest, chain[0].Reload(addr));
        LatencyIsVisited(rest, chain[0].Reload(addr), write, memLatency);
        if d < |rest| {
          assert chain[..d + 2][1..] == rest[..d + 1];
        }
      }
    }
  }

  // ----- conservation -------------------------------------------------------------------------------------

  /** Each level has been asked exactly for what the level above missed, reads and writes apart. */
  ghost predicate Balanced(chain: seq<Level>) {
    forall i :: 0 <= i < |chain| - 1 ==> BalancedAt(chain, i)
  }

  ghost predicate BalancedAt(chain: seq<Level>, i: nat)
    requires i + 1 < |chain|
  {
    && chain[i + 1].readHits + chain[i + 1].readMisses == chain[i].readMisses
    && chain[i + 1].writeHits + chain[i + 1].writeMisses == chain[i].writeMisses
  }

  /** Requests a level has answered. */
  function Asked(l: Level, write: bool): nat {
    if write then l.writeHits + l.writeMisses else l.readHits + l.readMisses
  }

  lemma {:induction false} AccessCounts(chain: seq<Level>, addr: nat, write: bool, memLatency: nat)
    requires WfChain(chain)
    ensures var r := AccessChain(chain, addr, write, memLatency).0;
            |chain| > 0 ==>
              Asked(r[0], write) == Asked(chain[0], write) + 1 && Asked(r[0], !write) == Asked(chain[0], !write)
    ensures Balanced(chain) ==> Balanced(AccessChain(chain, addr, write, memLatency).0)
  {
    if chain != [] {
      var rest := chain[1..];
      var r := AccessChain(chain, addr, write, memLatency).0;
      if Balanced(chain) {
        assert Balanced(rest) by { TailBalanced(chain); }
        if !chain[0].Hits(addr) {
          AccessCounts(rest, chain[0].Reload(addr), write, memLatency);
        }
        forall i | 0 <= i < |r| - 1
          ensures BalancedAt(r, i)
        {
          assert BalancedAt(chain, i);
          if i > 0 && !chain[0].Hits(addr) {
            assert BalancedAt(r[1..], i - 1);
          }
        }
      }
    }
  }

  lemma TailBalanced(chain: seq<Level>)
    requires |chain| > 0 && Balanced(chain)
    ensures Balanced(chain[1..])
  {
    forall i | 0 <= i < |chain[1..]| - 1
      ensures BalancedAt(chain[1..], i)
    {
      assert BalancedAt(chain, i + 1);
    }
  }

  datatype Req = Req(addr: nat, write: bool)

  /** The chain after a trace of requests entering at the first level. */
  ghost function AfterTrace(chain: seq<Level>, trace: seq<Req>, memLatency: nat): (r: seq<Level>)
    requires WfChain(chain)
    ensures WfChain(r) && |r| == |chain|
  {
    if trace == [] then chain
    else
      var c := AfterTrace(chain, trace[..|trace| - 1], memLatency);
      var q := trace[|trace| - 1];
      AccessKeepsWf(c, q.addr, q.write, memLatency);
      AccessChain(c, q.addr, q.write, memLatency).0
  }

  /** Over any trace each level's hits and misses of a kind add up to the misses of that kind one level up. */
  lemma {:induction false} Conservation(chain: seq<Level>, trace: seq<Req>, memLatency: nat)
    requires WfChain(chain) && Balanced(chain)
    ensures Balanced(AfterTrace(chain, trace, memLatency))
  {
    if trace != [] {
      var q := trace[|trace| - 1];
      Conservation(chain, trace[..|trace| - 1], memLatency);
      AccessCounts(AfterTrace(chain, trace[..|trace| - 1], memLatency), q.addr, q.write, memLatency);
    }
  }

  // ----- what each level sees ---------------------------------------------------------------------------------

  /** One level after serving a trace of its own. */
  ghost function LevelAfter(l: Level, trace: seq<Req>): (r: Level)
    requires l.Wf()
    ensures r.Wf() && r.g == l.g
  {
    if trace == [] then l
    else
      var q := trace[|trace| - 1];
      var before := LevelAfter(l, trace[..|trace| - 1]);
      ServedWf(before, q.addr, q.write);
      before.Served(q.addr, q.write)
  }

  /** The requests a level passes down: its misses, in order, at the start of their lines. */
  ghost function MissTrace(l: Level, trace: seq<Req>): seq<Req>
    requires l.Wf()
  {
    if trace == [] then []
    else
      var init, q := trace[..|trace| - 1], trace[|trace| - 1];
      MissTrace(l, init) + (if LevelAfter(l, init).Hits(q.addr) then [] else [Req(l.Reload(q.addr), q.write)])
  }

  lemma AccessSplits(chain: seq<Level>, q: Req, memLatency: nat)
    requires WfChain(chain) && |chain| > 0
    ensures var top := chain[0]; var r := AccessChain(chain, q.addr, q.write, memLatency).0;
            && r[0] == top.Served(q.addr, q.write)
            && r[1..] == if top.Hits(q.addr) then chain[1..]
                         else AccessChain(chain[1..], top.Reload(q.addr), q.write, memLatency).0
  {
  }

  lemma AccessUnfolds(chain: seq<Level>, q: Req, memLatency: nat)
    requires WfChain(chain) && |chain| > 0
    ensures var top := chain[0]; var r := AccessChain(chain, q.addr, q.write, memLatency);
            if top.Hits(q.addr) then r == ([top.Served(q.addr, q.write)] + chain[1..], top.g.latency)
            else
              var below := AccessChain(chain[1..], top.Reload(q.addr), q.write, memLatency);
              r == ([top.Served(q.addr, q.write)] + below.0, top.g.latency + below.1)
    ensures AccessChain([], chain[0].Reload(q.addr), q.write, memLatency) == ([], memLatency)
  {
  }

  lemma AfterOne(chain: seq<Level>, trace: seq<Req>, q: Req, memLatency: nat)
    requires WfChain(chain)
    ensures AfterTrace(chain, trace + [q], memLatency) ==
            AccessChain(AfterTrace(chain, trace, memLatency), q.addr, q.write, memLatency).0
  {
    assert (trace + [q])[..|trace|] == trace;
  }

  lemma LevelStep(l: Level, trace: seq<Req>, q: Req)
    requires l.Wf()
    ensures LevelAfter(l, trace + [q]) == LevelAfter(l, trace).Served(q.addr, q.write)
    ensures MissTrace(l, trace + [q]) ==
            if LevelAfter(l, trace).Hits(q.addr) then MissTrace(l, trace)
            else MissTrace(l, trace) + [Req(LevelAfter(l, trace).Reload(q.addr), q.write)]
  {
    hide Level.Served, Level.Hits;
    assert (trace + [q])[..|trace|] == trace;
    assert MissTrace(l, trace) + [] == MissTrace(l, trace);
  }

  /** The first level serves the trace as if it stood alone, and the levels below serve exactly its misses. */
  lemma {:induction false} LevelsCompose(chain: seq<Level>, trace: seq<Req>, memLatency: nat)
    requires WfChain(chain) && |chain| > 0
    ensures AfterTrace(chain, trace, memLatency)[0] == LevelAfter(chain[0], trace)
    ensures AfterTrace(chain, trace, memLatency)[1..] == AfterTrace(chain[1..], MissTrace(chain[0], trace), memLatency)
  {
    if trace != [] {
      assert chain[0].Wf() && WfChain(chain[1..]);
      hide AccessChain, AfterTrace, LevelAfter, MissTrace, Level.Served, Level.Hits, Level.Wf;
      var init, q := trace[..|trace| - 1], trace[|trace| - 1];
      assert trace == init + [q];
      LevelsCompose(chain, init, memLatency);
      var before := AfterTrace(chain, init, memLatency);
      AfterOne(chain, init, q, memLatency);
      AccessSplits(before, q, memLatency);
      LevelStep(chain[0], init, q);
      if !before[0].Hits(q.addr) {
        AfterOne(chain[1..], MissTrace(chain[0], init), Req(before[0].Reload(q.addr), q.write), memLatency);
      }
    }
  }

  /** The tags a trace brings to set w, in order. */
  function TagsAt(g: Geometry, trace: seq<Req>, w: nat): seq<Tag> {
    if trace == [] then []
    else
      var init, q := trace[..|trace| - 1], trace[|trace| - 1];
      TagsAt(g, init, w) + (if SetOf(g, q.addr) == w then [TagOf(g, q.addr)] else [])
  }

  lemma AfterAccess(assoc: nat, tags: seq<Tag>, t: Tag)
    ensures After(assoc, Accesses(tags + [t])) == Touch(assoc, After(assoc, Accesses(tags)), t)
  {
    assert Accesses(tags + [t])[..|tags|] == Accesses(tags);
  }

  /** Set w of a level that started empty is the LRU set of the tags brought to it. */
  lemma {:induction false} LevelIsLru(l: Level, trace: seq<Req>, w: nat)
    requires l.Wf() && w < |l.sets| && l.sets[w] == []
    ensures LevelAfter(l, trace).sets[w] == After(l.g.assoc, Accesses(TagsAt(l.g, trace, w)))
  {
    if trace != [] {
      var init, q := trace[..|trace| - 1], trace[|trace| - 1];
      LevelIsLru(l, init, w);
      AfterAccess(l.g.assoc, TagsAt(l.g, init, w), TagOf(l.g, q.addr));
      hide Touch, After, TagOf, SetOf;
      assert TagsAt(l.g, init, w) + [] == TagsAt(l.g, init, w);
    }
  }

  /** A level that started empty hits exactly when the line was asked for before, with fewer than assoc distinct other
      lines of its set since. */
  lemma LevelReuseDistance(l: Level, trace: seq<Req>, addr: nat)
    requires l.Wf() && l.sets[SetOf(l.g, addr)] == []
    ensures var tags := TagsAt(l.g, trace, SetOf(l.g, addr)); var t := TagOf(l.g, addr);
            LevelAfter(l, trace).Hits(addr) <==> t in tags && |Elements(Since(tags, t))| < l.g.assoc
  {
    var w := SetOf(l.g, addr);
    LevelIsLru(l, trace, w);
    ReuseDistance(l.g.assoc, TagsAt(l.g, trace, w), TagOf(l.g, addr));
  }

  // ----- every level, in the addresses of the trace itself ------------------------------------------------------

  /** The address passed down is the start of the line asked for. */
  lemma ReloadIsLineStart(l: Level, addr: nat)
    ensures var r := l.Reload(addr);
            r <= addr && OffsetOf(l.g, r) == 0 && TagOf(l.g, r) == TagOf(l.g, addr) && SetOf(l.g, r) == SetOf(l.g, addr)
    ensures Quot(l.Reload(addr), l.g.LineBytes()) == Quot(addr, l.g.LineBytes())
  {
    hide Quot, Rem, Pow2;
    DivMod(addr, l.g.LineBytes());
    QuotientUnique(l.Reload(addr), l.g.LineBytes(), Quot(addr, l.g.LineBytes()), 0);
    IndexInjective(l.g, l.Reload(addr), addr);
  }

  /** The same lines of 2^ln bytes, in the same order. */
  ghost predicate Alike(ln: nat, a: seq<Req>, b: seq<Req>) {
    |a| == |b| && forall i :: 0 <= i < |a| ==> Quot(a[i].addr, Pow2(ln)) == Quot(b[i].addr, Pow2(ln))
  }

  lemma Coarser(ln: nat, m: nat, x: nat, y: nat)
    requires ln <= m && Quot(x, Pow2(ln)) == Quot(y, Pow2(ln))
    ensures Quot(x, Pow2(m)) == Quot(y, Pow2(m))
  {
    hide Quot, Pow2;
    assert m == (m - ln) + ln;
    ShiftTwice(x, m - ln, ln);
    ShiftTwice(y, m - ln, ln);
  }

  /** The start of its line lies in the same line of the next level as every address of the line, exactly if the next
      level's lines are no shorter. */
  lemma LinesNest(l: Level, g: Geometry)
    ensures l.g.lnLine <= g.lnLine <==>
            forall addr: nat :: Quot(l.Reload(addr), g.LineBytes()) == Quot(addr, g.LineBytes())
  {
    hide Quot, Pow2, Level.Reload;
    if l.g.lnLine <= g.lnLine {
      forall addr: nat
        ensures Quot(l.Reload(addr), g.LineBytes()) == Quot(addr, g.LineBytes())
      {
        ReloadIsLineStart(l, addr);
        Coarser(l.g.lnLine, g.lnLine, l.Reload(addr), addr);
      }
    } else {
      ShorterLines(l, g, Pow2(g.lnLine));
    }
  }

  lemma ShorterLines(l: Level, g: Geometry, addr: nat)
    requires g.lnLine < l.g.lnLine && addr == Pow2(g.lnLine)
    ensures Quot(l.Reload(addr), g.LineBytes()) == 0 && Quot(addr, g.LineBytes()) == 1
  {
    hide Quot, Pow2;
    Pow2Grows(g.lnLine, l.g.lnLine);
    QuotientUnique(addr, l.g.LineBytes(), 0, addr);
    QuotientUnique(0, g.LineBytes(), 0, 0);
    QuotientUnique(addr, g.LineBytes(), 1, 0);
  }

  lemma {:induction false} Pow2Grows(a: nat, b: nat)
    requires a < b
    ensures Pow2(a) < Pow2(b)
    decreases b
  {
    if a < b - 1 {
      Pow2Grows(a, b - 1);
    }
  }

  /** The line was asked for before, with fewer than assoc distinct other lines of its set since. */
  ghost predicate Reused(g: Geometry, trace: seq<Req>, addr: nat) {
    var tags, t := TagsAt(g, trace, SetOf(g, addr)), TagOf(g, addr);
    t in tags && |Elements(Since(tags, t))| < g.assoc
  }

  /** The requests of a trace whose line is not reused. */
  ghost function Missed(g: Geometry, trace: seq<Req>): seq<Req> {
    if trace == [] then []
    else
      var init, q := trace[..|trace| - 1], trace[|trace| - 1];
      Missed(g, init) + (if Reused(g, init, q.addr) then [] else [q])
  }

  /** The requests that none of several levels reuses, each looking at what the ones before leave. */
  ghost function MissedThrough(gs: seq<Geometry>, trace: seq<Req>): seq<Req> {
    if gs == [] then trace else MissedThrough(gs[1..], Missed(gs[0], trace))
  }

  lemma SameIndex(g: Geometry, x: nat, y: nat)
    requires Quot(x, g.LineBytes()) == Quot(y, g.LineBytes())
    ensures TagOf(g, x) == TagOf(g, y) && SetOf(g, x) == SetOf(g, y)
  {
    IndexInjective(g, x, y);
  }

  lemma AlikeLast(ln: nat, a: seq<Req>, b: seq<Req>)
    requires Alike(ln, a, b) && a != []
    ensures |b| == |a| && Alike(ln, a[..|a| - 1], b[..|b| - 1])
    ensures Quot(a[|a| - 1].addr, Pow2(ln)) == Quot(b[|b| - 1].addr, Pow2(ln))
  {
  }

  lemma AlikeAppend(ln: nat, a: seq<Req>, b: seq<Req>, p: Req, q: Req)
    requires Alike(ln, a, b) && Quot(p.addr, Pow2(ln)) == Quot(q.addr, Pow2(ln))
    ensures Alike(ln, a + [p], b + [q])
  {
  }

  lemma {:induction false} AlikeTags(ln: nat, g: Geometry, a: seq<Req>, b: seq<Req>, w: nat)
    requires Alike(ln, a, b) && ln <= g.lnLine
    ensures TagsAt(g, a, w) == TagsAt(g, b, w)
  {
    if a != [] {
      hide Alike, Quot, TagOf, SetOf;
      AlikeLast(ln, a, b);
      AlikeTags(ln, g, a[..|a| - 1], b[..|b| - 1], w);
      Coarser(ln, g.lnLine, a[|a| - 1].addr, b[|b| - 1].addr);
      SameIndex(g, a[|a| - 1].addr, b[|b| - 1].addr);
    } else {
      assert b == [];
    }
  }

  lemma AlikeReused(ln: nat, g: Geometry, a: seq<Req>, b: seq<Req>, x: nat, y: nat)
    requires Alike(ln, a, b) && ln <= g.lnLine && Quot(x, Pow2(ln)) == Quot(y, Pow2(ln))
    ensures Reused(g, a, x) <==> Reused(g, b, y)
  {
    hide Alike, Quot, TagOf, SetOf, TagsAt;
    Coarser(ln, g.lnLine, x, y);
    SameIndex(g, x, y);
    AlikeTags(ln, g, a, b, SetOf(g, x));
  }

  lemma {:induction false} AlikeMissed(ln: nat, g: Geometry, a: seq<Req>, b: seq<Req>)
    requires Alike(ln, a, b) && ln <= g.lnLine
    ensures Alike(ln, Missed(g, a), Missed(g, b))
  {
    if a != [] {
      hide Alike, Quot, Reused;
      AlikeLast(ln, a, b);
      AlikeMissed(ln, g, a[..|a| - 1], b[..|b| - 1]);
      AlikeReused(ln, g, a[..|a| - 1], b[..|b| - 1], a[|a| - 1].addr, b[|b| - 1].addr);
      AlikeAppend(ln, Missed(g, a[..|a| - 1]), Missed(g, b[..|b| - 1]), a[|a| - 1], b[|b| - 1]);
      assert Missed(g, a[..|a| - 1]) + [] == Missed(g, a[..|a| - 1]);
      assert Missed(g, b[..|b| - 1]) + [] == Missed(g, b[..|b| - 1]);
    } else {
      assert b == [];
    }
  }

  ghost predicate EmptyLevel(l: Level) {
    l.Wf() && forall w :: 0 <= w < |l.sets| ==> l.sets[w] == []
  }

  lemma HitIsReused(l: Level, trace: seq<Req>, addr: nat)
    requires EmptyLevel(l)
    ensures LevelAfter(l, trace).Hits(addr) <==> Reused(l.g, trace, addr)
  {
    LevelReuseDistance(l, trace, addr);
  }

  /** What a level passes down are the line starts of its own misses. */
  lemma {:induction false} MissTraceAlike(l: Level, trace: seq<Req>)
    requires EmptyLevel(l)
    ensures Alike(l.g.lnLine, MissTrace(l, trace), Missed(l.g, trace))
  {
    if trace != [] {
      hide Alike, Quot, Reused, EmptyLevel, Level.Reload, LevelAfter, Level.Hits;
      assert l.Wf() by { EmptyIsWf(l); }
      var init, q := trace[..|trace| - 1], trace[|trace| - 1];
      MissTraceAlike(l, init);
      HitIsReused(l, init, q.addr);
      ReloadIsLineStart(l, q.addr);
      AlikeAppend(l.g.lnLine, MissTrace(l, init), Missed(l.g, init), Req(l.Reload(q.addr), q.write), q);
      assert MissTrace(l, init) + [] == MissTrace(l, init) && Missed(l.g, init) + [] == Missed(l.g, init);
    }
  }

  lemma EmptyIsWf(l: Level)
    requires EmptyLevel(l)
    ensures l.Wf()
  {
  }

  lemma AlikeJoins(ln: nat, m: nat, a: seq<Req>, b: seq<Req>, c: seq<Req>)
    requires ln <= m && Alike(m, a, b) && Alike(ln, b, c)
    ensures Alike(m, a, c)
  {
    hide Quot, Pow2;
    forall i | 0 <= i < |a|
      ensures Quot(a[i].addr, Pow2(m)) == Quot(c[i].addr, Pow2(m))
    {
      Coarser(ln, m, b[i].addr, c[i].addr);
    }
  }

  /** Levels that start empty, with lines no shorter from one to the next. */
  ghost predicate Nested(chain: seq<Level>) {
    && (forall i :: 0 <= i < |chain| ==> EmptyLevel(chain[i]))
    && forall i :: 0 < i < |chain| ==> chain[i - 1].g.lnLine <= chain[i].g.lnLine
  }

  function Geometries(chain: seq<Level>): (r: seq<Geometry>)
    ensures |r| == |chain|
  {
    seq(|chain|, i requires 0 <= i < |chain| => chain[i].g)
  }

  lemma NestedRest(chain: seq<Level>)
    requires Nested(chain)
    ensures WfChain(chain)
    ensures |chain| > 0 ==> EmptyLevel(chain[0]) && Nested(chain[1..])
    ensures |chain| > 1 ==> chain[0].g.lnLine <= chain[1].g.lnLine
  {
    if |chain| > 0 {
      forall i | 0 < i < |chain[1..]|
        ensures chain[1..][i - 1].g.lnLine <= chain[1..][i].g.lnLine
      {
        assert chain[(i + 1) - 1].g.lnLine <= chain[i + 1].g.lnLine;
      }
    }
  }

  lemma {:induction false} LevelHits(chain: seq<Level>, a: seq<Req>, b: seq<Req>, ln: nat, i: nat, addr: nat,
                                     memLatency: nat)
    requires Nested(chain) && WfChain(chain) && i < |chain| && ln <= chain[0].g.lnLine && Alike(ln, a, b)
    ensures |AfterTrace(chain, a, memLatency)[i].sets| == AfterTrace(chain, a, memLatency)[i].g.NumSets()
    ensures AfterTrace(chain, a, memLatency)[i].Hits(addr) <==>
            Reused(chain[i].g, MissedThrough(Geometries(chain)[..i], b), addr)
    decreases i
  {
    hide Alike, Reused, Nested, EmptyLevel, AfterTrace, LevelAfter, MissTrace, Missed, Level.Hits, Pow2;
    NestedRest(chain);
    LevelsCompose(chain, a, memLatency);
    assert AfterTrace(chain, a, memLatency)[i].Wf();
    var g := chain[0].g;
    if i == 0 {
      HitIsReused(chain[0], a, addr);
      AlikeReused(ln, g, a, b, addr, addr);
    } else {
      MissTraceAlike(chain[0], a);
      AlikeMissed(ln, g, a, b);
      AlikeJoins(ln, g.lnLine, MissTrace(chain[0], a), Missed(g, a), Missed(g, b));
      LevelHits(chain[1..], MissTrace(chain[0], a), Missed(g, b), g.lnLine, i - 1, addr, memLatency);
      assert Geometries(chain)[..i][0] == g;
      assert Geometries(chain)[..i][1..] == Geometries(chain[1..])[..i - 1];
    }
  }

  lemma AlikeSelf(ln: nat, a: seq<Req>)
    ensures Alike(ln, a, a)
  {
  }

  /** Over any trace, level i hits exactly if the line, in its own lines, was asked for before among the requests of the
      trace that no level above reuses, with fewer than assoc distinct other lines of its set among them since: hits at
      every level are read off the addresses of the trace. */
  lemma EveryLevelReuse(chain: seq<Level>, trace: seq<Req>, i: nat, addr: nat, memLatency: nat)
    requires Nested(chain) && WfChain(chain) && i < |chain|
    ensures |AfterTrace(chain, trace, memLatency)[i].sets| == AfterTrace(chain, trace, memLatency)[i].g.NumSets()
    ensures AfterTrace(chain, trace, memLatency)[i].Hits(addr) <==>
            Reused(chain[i].g, MissedThrough(Geometries(chain)[..i], trace), addr)
  {
    AlikeSelf(0, trace);
    LevelHits(chain, trace, trace, 0, i, addr, memLatency);
  }

  /** Each level's lines are no shorter than those of the level above. */
  ghost predicate Widening(chain: seq<Level>) {
    WfChain(chain) && forall i :: 0 < i < |chain| ==> chain[i - 1].g.lnLine <= chain[i].g.lnLine
  }

  lemma WideningRest(chain: seq<Level>)
    requires Widening(chain) && |chain| > 0
    ensures Widening(chain[1..]) && chain[0].Wf() && (|chain| > 1 ==> chain[0].g.lnLine <= chain[1].g.lnLine)
  {
    var rest := chain[1..];
    forall i | 0 < i < |rest|
      ensures rest[i - 1].g.lnLine <= rest[i].g.lnLine
    {
      assert chain[(i + 1) - 1].g.lnLine <= chain[i + 1].g.lnLine;
    }
  }

  ghost predicate HitsAt(chain: seq<Level>, i: nat, addr: nat)
    requires WfChain(chain)
  {
    i < |chain| && chain[i].Hits(addr)
  }

  /** The level that answers is the first that holds the line of the address itself. */
  lemma {:induction false} DepthHits(chain: seq<Level>, x: nat, addr: nat, ln: nat)
    requires Widening(chain) && (|chain| > 0 ==> ln <= chain[0].g.lnLine) && Quot(x, Pow2(ln)) == Quot(addr, Pow2(ln))
    ensures var d := Depth(chain, x);
            (d < |chain| ==> HitsAt(chain, d, addr)) && forall j :: 0 <= j < d ==> !HitsAt(chain, j, addr)
  {
    if chain != [] {
      hide Quot, Pow2, Widening, Level.Reload, TagOf, SetOf;
      WideningRest(chain);
      var l := chain[0];
      Coarser(ln, l.g.lnLine, x, addr);
      SameIndex(l.g, x, addr);
      if !l.Hits(x) {
        ReloadIsLineStart(l, x);
        DepthHits(chain[1..], l.Reload(x), addr, l.g.lnLine);
        forall j | 0 <= j < Depth(chain, x)
          ensures !HitsAt(chain, j, addr)
        {
          if j > 0 {
            assert !HitsAt(chain[1..], j - 1, addr);
          }
        }
      }
    }
  }

  lemma {:induction false} TraceKeepsGeometry(chain: seq<Level>, trace: seq<Req>, memLatency: nat)
    requires WfChain(chain)
    ensures Geometries(AfterTrace(chain, trace, memLatency)) == Geometries(chain)
  {
    if trace != [] {
      var init, q := trace[..|trace| - 1], trace[|trace| - 1];
      TraceKeepsGeometry(chain, init, memLatency);
      AccessKeepsGeometry(AfterTrace(chain, init, memLatency), q.addr, q.write, memLatency);
    }
  }

  lemma {:induction false} AccessKeepsGeometry(chain: seq<Level>, addr: nat, write: bool, memLatency: nat)
    requires WfChain(chain)
    ensures Geometries(AccessChain(chain, addr, write, memLatency).0) == Geometries(chain)
  {
    if chain != [] {
      hide WfChain, Geometries, Level.Served, Level.Reload, Level.Hits;
      var rest, r := chain[1..], AccessChain(chain, addr, write, memLatency).0;
      RestWf(chain);
      if !chain[0].Hits(addr) {
        AccessKeepsGeometry(rest, chain[0].Reload(addr), write, memLatency);
      }
      assert r[0] == chain[0].Served(addr, write) && Geometries(r[1..]) == Geometries(rest);
      ServedWf(chain[0], addr, write);
      FirstGeometry(r);
      FirstGeometry(chain);
    }
  }

  lemma RestWf(chain: seq<Level>)
    requires WfChain(chain) && chain != []
    ensures chain[0].Wf() && WfChain(chain[1..])
  {
  }

  lemma FirstGeometry(chain: seq<Level>)
    requires chain != []
    ensures Geometries(chain) == [chain[0].g] + Geometries(chain[1..])
  {
  }

  lemma NestedWidens(chain: seq<Level>, after: seq<Level>)
    requires Nested(chain) && Geometries(after) == Geometries(chain) && WfChain(after)
    ensures Widening(after)
  {
    forall i | 0 < i < |after|
      ensures after[i - 1].g.lnLine <= after[i].g.lnLine
    {
      assert Geometries(after)[i - 1] == Geometries(chain)[i - 1] && Geometries(after)[i] == Geometries(chain)[i];
    }
  }

  /** After any trace, an access is answered by the first level at which the line is reused, and takes the latencies up
      to that level, or all of them and the memory's: what an access costs is read off the addresses before it. */
  lemma LatencyFromAddresses(chain: seq<Level>, trace: seq<Req>, addr: nat, write: bool, memLatency: nat)
    returns (d: nat)
    requires Nested(chain) && WfChain(chain)
    ensures d <= |chain| && (d < |chain| ==> Reused(chain[d].g, MissedThrough(Geometries(chain)[..d], trace), addr))
    ensures forall j :: 0 <= j < d ==> !Reused(chain[j].g, MissedThrough(Geometries(chain)[..j], trace), addr)
    ensures AccessChain(AfterTrace(chain, trace, memLatency), addr, write, memLatency).1 ==
            if d == |chain| then SumLatency(chain) + memLatency else SumLatency(chain[..d + 1])
  {
    hide Nested, Widening, Reused, AfterTrace, AccessChain, Depth, MissedThrough, SumLatency, Geometries;
    var after := AfterTrace(chain, trace, memLatency);
    TraceKeepsGeometry(chain, trace, memLatency);
    NestedWidens(chain, after);
    d := Depth(after, addr);
    DepthHits(after, addr, addr, 0);
    LatencyIsVisited(after, addr, write, memLatency);
    SameLatency(chain, after);
    if d < |chain| {
      GeometriesTake(chain, after, d + 1);
      SameLatency(chain[..d + 1], after[..d + 1]);
      EveryLevelReuse(chain, trace, d, addr, memLatency);
    }
    forall j | 0 <= j < d
      ensures !Reused(chain[j].g, MissedThrough(Geometries(chain)[..j], trace), addr)
    {
      assert !HitsAt(after, j, addr);
      EveryLevelReuse(chain, trace, j, addr, memLatency);
    }
  }

  lemma GeometriesTake(a: seq<Level>, b: seq<Level>, n: nat)
    requires Geometries(a) == Geometries(b) && n <= |a|
    ensures |a| == |b| && Geometries(a[..n]) == Geometries(b[..n])
  {
    forall i | 0 <= i < n
      ensures Geometries(a[..n])[i] == Geometries(b[..n])[i]
    {
      assert Geometries(a)[i] == Geometries(b)[i];
    }
  }

  lemma {:induction false} SameLatency(a: seq<Level>, b: seq<Level>)
    requires Geometries(a) == Geometries(b)
    ensures |a| == |b| && SumLatency(a) == SumLatency(b)
    decreases |a|
  {
    assert |Geometries(a)| == |Geometries(b)|;
    if a != [] {
      assert Geometries(a)[0] == Geometries(b)[0];
      assert Geometries(a[1..]) == Geometries(a)[1..] && Geometries(b[1..]) == Geometries(b)[1..];
      SameLatency(a[1..], b[1..]);
    }
  }

  // ----- the linked levels -----------------------------------------------------------------------------------

  /** The sets made for a level are all empty and share nothing but its counters. */
  method MakeSets(n: nat, assoc: nat, counters: Counters) returns (sets: seq<CacheSet>, ghost objs: set<object>)
    requires assoc >= 1
    ensures |sets| == n && fresh(objs) && counters !in objs
    ensures forall i :: 0 <= i < n ==> Made(sets[i], assoc, counters, objs)
    ensures forall i, j :: 0 <= i < j < n ==> sets[i].Repr !! sets[j].Repr
  {
    sets, objs := [], {};
    while |sets| < n
      invariant |sets| <= n && fresh(objs) && counters !in objs
      invariant forall i :: 0 <= i < |sets| ==> Made(sets[i], assoc, counters, objs)
      invariant forall i, j :: 0 <= i < j < |sets| ==> sets[i].Repr !! sets[j].Repr
    {
      var s := new CacheSet(assoc, counters);
      sets, objs := sets + [s], objs + s.Repr;
    }
  }

  ghost predicate Made(s: CacheSet, assoc: nat, counters: Counters, objs: set<object>)
    reads s, s.Repr
  {
    && s in objs && s in s.Repr && s.Repr <= objs && counters !in s.Repr
    && s.Valid() && s.assoc == assoc && s.counters == counters && s.Tags() == []
  }

  /** A level of the simulator's chain; a miss is passed on through the next pointer. Own holds the level's objects and
      Repr those of the levels from here down. */
  class SetAssocCache {
    const g: Geometry
    const sets: seq<CacheSet>
    const counters: Counters
    const next: SetAssocCache?
    ghost var Own: set<object>
    ghost var Repr: set<object>

    ghost predicate SetOk(i: nat)
      requires i < |sets|
      reads this`Own, Own
    {
      && sets[i] in Own && sets[i].Repr <= Own && counters !in sets[i].Repr && sets[i] in sets[i].Repr
      && sets[i].Valid() && sets[i].assoc == g.assoc && sets[i].counters == counters
    }

    ghost predicate Apart(i: nat, j: nat)
      requires i < |sets| && j < |sets|
      reads this`Own, Own
    {
      sets[i] in Own && sets[j] in Own && sets[i].Repr !! sets[j].Repr
    }

    /** The sets of the level are well formed and share no entries. */
    ghost predicate OwnValid()
      reads this`Own, Own
    {
      && this !in Own && counters in Own && counters.Valid() && |sets| == g.NumSets() && g.assoc >= 1
      && (forall i :: 0 <= i < |sets| ==> SetOk(i))
      && (forall i, j :: 0 <= i < j < |sets| ==> Apart(i, j))
    }

    ghost function TagsIn(i: nat): (r: seq<Tag>)
      requires i < |sets| && SetOk(i)
      reads this`Own, Own
      ensures Distinct(r) && |r| <= g.assoc
    {
      sets[i].Tags()
    }

    ghost function FirstSets(n: nat): (r: seq<seq<Tag>>)
      requires n <= |sets| && forall i :: 0 <= i < n ==> SetOk(i)
      reads this`Own, Own
      ensures |r| == n && forall i :: 0 <= i < n ==> r[i] == TagsIn(i)
    {
      if n == 0 then [] else FirstSets(n - 1) + [TagsIn(n - 1)]
    }

    ghost function ThisLevel(): (r: Level)
      requires OwnValid()
      reads this`Own, Own
      ensures r.Wf() && r.g == g && |r.sets| == |sets| && forall i :: 0 <= i < |sets| ==> r.sets[i] == TagsIn(i)
    {
      Level(g, FirstSets(|sets|), counters.readHits, counters.readMisses, counters.writeHits, counters.writeMisses)
    }

    ghost predicate Valid()
      reads this, Repr
      decreases Repr
    {
      && this in Repr && this !in Own && Own <= Repr && OwnValid()
      && (next == null ==> Repr == {this} + Own)
      && (next != null ==>
            next in Repr && Repr == {this} + Own + next.Repr && {this} !! Own !! next.Repr && next.Valid())
    }

    ghost function Chain(): (r: seq<Level>)
      requires Valid()
      reads this, Repr
      ensures WfChain(r) && |r| > 0
      decreases Repr
    {
      if next == null then [ThisLevel()] else [ThisLevel()] + next.Chain()
    }

    constructor (g: Geometry, next: SetAssocCache?)
      requires g.assoc >= 1 && (next != null ==> next.Valid())
      ensures Valid() && this.next == next && fresh(Own)
      ensures Chain() == [Level(g, seq(g.NumSets(), _ => []), 0, 0, 0, 0)] + (if next == null then [] else next.Chain())
    {
      var cs := new Counters();
      var ss, objs := MakeSets(g.NumSets(), g.assoc, cs);
      this.g, this.next, counters, sets := g, next, cs, ss;
      Own := {cs} + objs;
      Repr := {this} + Own + (if next == null then {} else next.Repr);
      new;
      hide Made, CacheSet.Valid, CacheSet.Tags, Counters.Valid, WfChain, Level.Wf, OwnValid, ThisLevel, Chain;
      EmptyLevel(objs);
      Whole();
    }

    lemma EmptyLevel(objs: set<object>)
      requires Own == {counters} + objs && this !in Own && |sets| == g.NumSets() && g.assoc >= 1
      requires forall i :: 0 <= i < |sets| ==> Made(sets[i], g.assoc, counters, objs)
      requires forall i, j :: 0 <= i < j < |sets| ==> sets[i].Repr !! sets[j].Repr
      requires counters.Valid()
          && counters.readHits == counters.readMisses == counters.writeHits == counters.writeMisses == 0
      ensures OwnValid() && ThisLevel() == Level(g, seq(g.NumSets(), _ => []), 0, 0, 0, 0)
    {
      hide CacheSet.Valid, CacheSet.Tags, Distinct, Counters.Valid, Level.Wf;
      forall i | 0 <= i < |sets|
        ensures SetOk(i) && TagsIn(i) == []
      {
        assert Made(sets[i], g.assoc, counters, objs);
      }
      assert FirstSets(|sets|) == seq(g.NumSets(), _ => []);
    }

    /** The level's own part of an access. */
    method Serve(addr: nat, write: bool) returns (hit: bool)
      requires OwnValid()
      modifies this`Own, Own
      ensures this !in Own && fresh(Own - old(Own))
      ensures hit == old(ThisLevel()).Hits(addr)
      ensures OwnValid() <==> old(ThisLevel()).Keeps(addr)
      ensures OwnValid() ==> ThisLevel() == old(ThisLevel()).Served(addr, write)
    {
      hide CacheSet.Valid, CacheSet.Tags, Distinct, Touch, Counters.Valid, SetOf, TagOf;
      var w, t := SetOf(g, addr), TagOf(g, addr);
      ghost var level := ThisLevel();
      assert SetOk(w);
      hit := sets[w].Access(t, write);
      Own := Own + sets[w].Repr;
      if level.Keeps(addr) {
        forall i | 0 <= i < |sets|
          ensures SetOk(i) && TagsIn(i) == level.Served(addr, write).sets[i]
        {
          assert old(SetOk(i));
          assert i < w ==> old(Apart(i, w));
          assert w < i ==> old(Apart(w, i));
        }
        forall i, j | 0 <= i < j < |sets|
          ensures Apart(i, j)
        {
          assert old(SetOk(i)) && old(SetOk(j)) && old(Apart(i, j));
          assert i < w ==> old(Apart(i, w));
          assert w < i ==> old(Apart(w, i));
          assert j < w ==> old(Apart(j, w));
          assert w < j ==> old(Apart(w, j));
        }
      } else {
        assert !SetOk(w);
      }
    }

    lemma Parts()
      requires Valid()
      ensures this in Repr && this !in Own && OwnValid()
      ensures Repr == {this} + Own + (if next == null then {} else next.Repr)
      ensures WfChain(Chain()) && |Chain()| > 0 && Chain()[0] == ThisLevel()
      ensures if next == null then Chain() == [ThisLevel()]
              else next.Valid() && next in next.Repr && {this} !! Own !! next.Repr && Chain()[1..] == next.Chain()
    {
    }

    lemma Whole()
      requires this !in Own && Repr == {this} + Own + (if next == null then {} else next.Repr)
      requires next != null ==> next in next.Repr && {this} !! Own !! next.Repr
      ensures Valid() <==> OwnValid() && (next != null ==> next.Valid())
      ensures Valid() ==> Chain() == [ThisLevel()] + (if next == null then [] else next.Chain())
    {
    }

    /** The footprint after the level or those below it have changed. */
    ghost method Regroup()
      requires this !in Own && (next != null ==> next in next.Repr && {this} !! Own !! next.Repr)
      modifies this`Repr
      ensures Repr == {this} + Own + (if next == null then {} else next.Repr)
      ensures Valid() <==> old(OwnValid()) && (next != null ==> old(next.Valid()))
      ensures Valid() ==> Chain() == [old(ThisLevel())] + (if next == null then [] else old(next.Chain()))
    {
      hide Valid, Chain, OwnValid, ThisLevel, WfChain, Level.Wf;
      Repr := {this} + Own + (if next == null then {} else next.Repr);
      Whole();
    }

    /** Serving leaves the levels below alone. */
    method ServeAbove(addr: nat, write: bool) returns (hit: bool)
      requires Valid()
      modifies this`Own, Own
      ensures this !in Own && fresh(Own - old(Own)) && hit == old(ThisLevel()).Hits(addr)
      ensures OwnValid() <==> old(ThisLevel()).Keeps(addr)
      ensures OwnValid() ==> ThisLevel() == old(ThisLevel()).Served(addr, write)
      ensures next != null ==>
                && next.Valid() && next in next.Repr && next.Repr == old(next.Repr) && {this} !! Own !! next.Repr
                && next.Chain() == old(Chain())[1..]
    {
      Parts();
      hide Valid, Chain, OwnValid, ThisLevel, WfChain, Level.Served, Level.Hits, Level.Keeps;
      hit := Serve(addr, write);
    }

    /** A miss goes to the next level, or to memory; this level's own sets are left alone. */
    method PassOn(addr: nat, write: bool, lat: nat, memLatency: nat) returns (lat': nat)
      requires next != null ==> next.Valid() && next in next.Repr && {this} !! Own !! next.Repr
      modifies if next == null then {} else next.Repr
      ensures next == null ==> lat' == lat + memLatency
      ensures next != null ==> next in next.Repr && fresh(next.Repr - old(next.Repr)) && {this} !! Own !! next.Repr
      ensures next != null ==>
                && (next.Valid() <==> ChainKeeps(old(next.Chain()), addr))
                && (next.Valid() ==> next.Chain() == AccessChain(old(next.Chain()), addr, write, memLatency).0)
                && lat' == lat + AccessChain(old(next.Chain()), addr, write, memLatency).1
      ensures OwnValid() == old(OwnValid()) && (OwnValid() ==> ThisLevel() == old(ThisLevel()))
      decreases if next == null then {} else next.Repr, 2
    {
      hide Valid, Chain, OwnValid, ThisLevel, WfChain, AccessChain, ChainKeeps;
      if next == null {
        lat' := lat + memLatency;
      } else {
        var _, l := next.Access(addr, write, lat, memLatency);
        lat' := l;
      }
    }

    /** The access proper, before the footprint is brought up to date. */
    method Walk(addr: nat, write: bool, lat: nat, memLatency: nat) returns (hit: bool, lat': nat)
      requires Valid()
      modifies this`Own, Own, if next == null then {} else next.Repr
      ensures this !in Own && fresh(Own - old(Own)) && hit == old(ThisLevel()).Hits(addr)
      ensures next != null ==> next in next.Repr && fresh(next.Repr - old(next.Repr)) && {this} !! Own !! next.Repr
      ensures OwnValid() && (next != null ==> next.Valid()) <==> ChainKeeps(old(Chain()), addr)
      ensures OwnValid() && (next != null ==> next.Valid()) ==>
                [ThisLevel()] + (if next == null then [] else next.Chain()) ==
                AccessChain(old(Chain()), addr, write, memLatency).0
      ensures lat' == lat + AccessChain(old(Chain()), addr, write, memLatency).1
      decreases Repr, 0
    {
      Parts();
      hide Valid, Chain, OwnValid, ThisLevel, WfChain, AccessChain, ChainKeeps, Level.Served, Level.Hits, Level.Keeps,
        Quot, Pow2;
      ghost var chain := Chain();
      AccessUnfolds(chain, Req(addr, write), memLatency);
      KeepsUnfolds(chain, addr);
      lat' := lat + g.latency;
      hit := ServeAbove(addr, write);
      if !hit {
        lat' := PassOn(Quot(addr, g.LineBytes()) * g.LineBytes(), write, lat', memLatency);
      }
      assert next == null ==> chain[1..] == [];
    }

    /** lat accumulates the latency of the levels visited. The chain stays well formed exactly if no level visited has
        to drop the only entry of a set. */
    method Access(addr: nat, write: bool, lat: nat, memLatency: nat) returns (hit: bool, lat': nat)
      requires Valid()
      modifies Repr
      ensures this in Repr && fresh(Repr - old(Repr)) && hit == old(ThisLevel()).Hits(addr)
      ensures Valid() <==> ChainKeeps(old(Chain()), addr)
      ensures Valid() ==> Chain() == AccessChain(old(Chain()), addr, write, memLatency).0
      ensures lat' == lat + AccessChain(old(Chain()), addr, write, memLatency).1
      decreases Repr, 1
    {
      Parts();
      hide Valid, Chain, OwnValid, ThisLevel, WfChain, AccessChain, ChainKeeps, Level.Hits;
      hit, lat' := Walk(addr, write, lat, memLatency);
      Regroup();
    }
  }
}
