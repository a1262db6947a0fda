/** What scripts/analyze_root_crate.py reports about cycles: when there are none, and what evicts a module from one. */
module CycleReport {
  import opened Graphs
  import opened Components
  import Tarjan
  import opened Utils

  // ---------- facts about any condensation ----------

  /** An edge between components leads to one emitted no later. */
  lemma EdgesLeadToEarlierComponents(g: Graph, comps: seq<seq<Node>>, i: nat, j: nat, u: Node, w: Node)
    requires IsCondensation(g, comps) && i < |comps| && j < |comps|
    requires u in comps[i] && w in comps[j] && w in Succ(g, u)
    ensures j <= i
  {
    assert Closed(g, Emitted(comps[..i + 1]));
    assert comps[..i + 1][i] == comps[i];
    assert u in Emitted(comps[..i + 1]);
    assert w in Emitted(comps[..i + 1]);
    var k :| 0 <= k < i + 1 && w in comps[..i + 1][k];
    assert w in comps[k];
  }

  /** Two condensations of one graph list the same classes, whatever order the search took. */
  lemma CondensationsAgree(g: Graph, comps: seq<seq<Node>>, comps': seq<seq<Node>>, i: nat)
    requires IsCondensation(g, comps) && IsCondensation(g, comps') && i < |comps|
    ensures exists j :: 0 <= j < |comps'| && multiset(comps[i]) == multiset(comps'[j])
  {
    hide Closed, PairwiseDisjoint, Reach;
    assert IsComponent(g, comps[i]);
    var x := comps[i][0];
    assert x in comps[i];
    assert x in Emitted(comps) && x in Emitted(comps');
    var j :| 0 <= j < |comps'| && x in comps'[j];
    assert IsComponent(g, comps'[j]);
    SameMembers(comps[i], comps'[j]);
  }

  lemma SameMembers(s: seq<Node>, t: seq<Node>)
    requires NoDuplicates(s) && NoDuplicates(t) && forall x :: x in s <==> x in t
    ensures multiset(s) == multiset(t)
  {
    forall x
      ensures multiset(s)[x] == multiset(t)[x]
    {
      CountOnce(s, x);
      CountOnce(t, x);
    }
  }

  lemma {:induction false} CountOnce(s: seq<Node>, x: Node)
    requires NoDuplicates(s)
    ensures multiset(s)[x] == if x in s then 1 else 0
  {
    if s != [] {
      CountOnce(s[1..], x);
      assert s == [s[0]] + s[1..];
      assert s[0] == x ==> x !in s[1..];
    }
  }

  ghost predicate AllSingletons(comps: seq<seq<Node>>) {
    forall i :: 0 <= i < |comps| ==> |comps[i]| <= 1
  }

  lemma PathLeavesByEdge(g: Graph, x: Node, y: Node) returns (z: Node)
    requires Reach(g, x, y) && x != y
    ensures z in Succ(g, x) && Reach(g, z, y)
  {
    var p :| IsPath(g, x, p, y);
    z := p[0];
    assert IsPath(g, z, p[1..], y);
  }

  lemma AtMostOneMember(s: seq<Node>, x: Node, y: Node)
    requires |s| <= 1 && x in s && y in s
    ensures x == y
  {
  }

  lemma SingletonsMeanAcyclic(g: Graph, comps: seq<seq<Node>>)
    requires IsCondensation(g, comps) && SelfLoopFree(g) && AllSingletons(comps)
    ensures Acyclic(g)
  {
    forall x, y | y in Succ(g, x)
      ensures !Reach(g, y, x)
    {
      if Reach(g, y, x) {
        ReachEdge(g, x, y);
        assert x in Emitted(comps);
        var i :| 0 <= i < |comps| && x in comps[i];
        assert IsComponent(g, comps[i]) && Mutual(g, x, y);
        AtMostOneMember(comps[i], x, y);
        assert false;
      }
    }
  }

  lemma AcyclicMeansSingletons(g: Graph, comps: seq<seq<Node>>)
    requires IsCondensation(g, comps) && Acyclic(g)
    ensures AllSingletons(comps)
  {
    forall i | 0 <= i < |comps|
      ensures |comps[i]| <= 1
    {
      if |comps[i]| > 1 {
        var x, y := comps[i][0], comps[i][1];
        assert IsComponent(g, comps[i]);
        assert x != y && Mutual(g, x, y);
        var z := PathLeavesByEdge(g, x, y);
        ReachTrans(g, z, y, x);
      }
    }
  }

  // ---------- the report ----------

  datatype Facade = NotFacade | Thick | Fully

  datatype ModuleInfo = ModuleInfo(facade: Facade, outbound: set<Node>, refCounts: map<Node, nat>)

  /** The in-root dependency graph: no fully extracted modules, no unknown targets, no self-references. */
  function DependencyGraph(info: map<Node, ModuleInfo>): Graph {
    map n | n in info && info[n].facade != Fully ::
      set d | d in info[n].outbound && d in info && info[d].facade != Fully && d != n
  }

  /** The components of more than one node, in the order they were emitted. */
  method MultiNode(sccs: seq<seq<Node>>) returns (cycles: seq<seq<Node>>)
    requires PairwiseDisjoint(sccs)
    ensures forall c :: c in cycles <==> c in sccs && |c| > 1
    ensures PairwiseDisjoint(cycles)
  {
    hide PairwiseDisjoint;
    cycles := [];
    NothingOverlaps();
    for k := 0 to |sccs|
      invariant forall c :: c in cycles <==> c in sccs[..k] && |c| > 1
      invariant PairwiseDisjoint(cycles)
    {
      assert sccs[..k + 1] == sccs[..k] + [sccs[k]];
      if |sccs[k]| > 1 {
        NextIsDisjoint(sccs, k, cycles);
        cycles := cycles + [sccs[k]];
      }
    }
    assert sccs[..|sccs|] == sccs;
  }

  lemma NothingOverlaps()
    ensures PairwiseDisjoint([])
  {
  }

  lemma NextIsDisjoint(sccs: seq<seq<Node>>, k: nat, cycles: seq<seq<Node>>)
    requires k < |sccs| && PairwiseDisjoint(sccs) && PairwiseDisjoint(cycles)
    requires forall c :: c in cycles ==> c in sccs[..k]
    ensures PairwiseDisjoint(cycles + [sccs[k]])
  {
    forall i, x | 0 <= i < |cycles| && x in cycles[i]
      ensures x !in sccs[k]
    {
      assert cycles[i] in sccs[..k];
    }
  }

  lemma NoCyclesIffAcyclic(g: Graph, sccs: seq<seq<Node>>, cycles: seq<seq<Node>>)
    requires IsCondensation(g, sccs) && SelfLoopFree(g)
    requires forall c :: c in cycles <==> c in sccs && |c| > 1
    ensures cycles == [] <==> Acyclic(g)
  {
    hide Reach, Closed, PairwiseDisjoint, IsComponent, Acyclic;
    if cycles == [] {
      forall i | 0 <= i < |sccs|
        ensures |sccs[i]| <= 1
      {
        assert sccs[i] in sccs;
      }
      SingletonsMeanAcyclic(g, sccs);
    } else {
      assert cycles[0] in cycles;
      if Acyclic(g) {
        AcyclicMeansSingletons(g, sccs);
        assert false;
      }
    }
  }

  lemma MutualShareCycle(g: Graph, sccs: seq<seq<Node>>, x: Node, y: Node)
    requires IsCondensation(g, sccs) && x in g && x != y && Mutual(g, x, y)
    ensures exists c :: c in sccs && |c| > 1 && x in c && y in c
  {
    hide Reach, Closed, PairwiseDisjoint;
    assert x in Emitted(sccs);
    var i :| 0 <= i < |sccs| && x in sccs[i];
    assert IsComponent(g, sccs[i]) && y in sccs[i] && sccs[i] in sccs;
  }

  // ---------- rings of modules ----------

  /** `n` is a module that is not fully extracted, and it refers to `d`. */
  ghost predicate RefersTo(info: map<Node, ModuleInfo>, n: Node, d: Node) {
    n in info && info[n].facade != Fully && d in info[n].outbound && d != n
  }

  /** `y` follows `x` when going round. */
  ghost predicate Follows(ring: seq<Node>, x: Node, y: Node) {
    exists i :: 0 <= i < |ring| && ring[i] == x && y == ring[if i + 1 < |ring| then i + 1 else 0]
  }

  /** Modules of which each refers to the next and the last to the first. */
  ghost predicate IsRing(info: map<Node, ModuleInfo>, ring: seq<Node>) {
    |ring| > 1 && forall x, y :: Follows(ring, x, y) ==> RefersTo(info, x, y)
  }

  ghost predicate ClosedWalk(g: Graph, ring: seq<Node>) {
    ring != [] && forall x, y :: Follows(ring, x, y) ==> y in Succ(g, x)
  }

  lemma FollowsAt(ring: seq<Node>, i: nat)
    requires i < |ring|
    ensures Follows(ring, ring[i], ring[if i + 1 < |ring| then i + 1 else 0])
  {
  }

  lemma {:induction false} WalkReaches(g: Graph, ring: seq<Node>, i: nat, j: nat)
    requires ClosedWalk(g, ring) && i <= j < |ring|
    ensures Reach(g, ring[i], ring[j])
    decreases j
  {
    if i == j {
      ReachRefl(g, ring[i]);
    } else {
      WalkReaches(g, ring, i, j - 1);
      FollowsAt(ring, j - 1);
      ReachEdge(g, ring[j - 1], ring[j]);
      ReachTrans(g, ring[i], ring[j - 1], ring[j]);
    }
  }

  lemma WalkIsMutual(g: Graph, ring: seq<Node>, x: Node, y: Node)
    requires ClosedWalk(g, ring) && x in ring && y in ring
    ensures Reach(g, x, y)
  {
    var i :| 0 <= i < |ring| && ring[i] == x;
    var j :| 0 <= j < |ring| && ring[j] == y;
    if i <= j {
      WalkReaches(g, ring, i, j);
    } else {
      WalkReaches(g, ring, i, |ring| - 1);
      FollowsAt(ring, |ring| - 1);
      ReachEdge(g, ring[|ring| - 1], ring[0]);
      WalkReaches(g, ring, 0, j);
      ReachTrans(g, x, ring[|ring| - 1], ring[0]);
      ReachTrans(g, x, ring[0], y);
    }
  }

  lemma RingIsWalk(info: map<Node, ModuleInfo>, ring: seq<Node>)
    requires IsRing(info, ring)
    ensures ClosedWalk(DependencyGraph(info), ring)
    ensures forall x :: x in ring ==> x in info && info[x].facade != Fully
  {
    forall x | x in ring
      ensures x in info && info[x].facade != Fully
    {
      var i :| 0 <= i < |ring| && ring[i] == x;
      FollowsAt(ring, i);
    }
    forall x, y | Follows(ring, x, y)
      ensures y in Succ(DependencyGraph(info), x)
    {
      assert RefersTo(info, x, y) && y in ring;
    }
  }

  lemma EdgeIsReference(info: map<Node, ModuleInfo>, n: Node, d: Node)
    requires d in Succ(DependencyGraph(info), n)
    ensures RefersTo(info, n, d)
  {
  }

  lemma {:induction false} PathSteps(g: Graph, x: Node, p: seq<Node>, y: Node, i: nat)
    requires IsPath(g, x, p, y) && i < |p|
    ensures p[i] in Succ(g, ([x] + p)[i]) && p[|p| - 1] == y
    decreases p
  {
    if |p| > 1 {
      PathSteps(g, p[0], p[1..], y, if i > 0 then i - 1 else 0);
    }
  }

  /** The nodes of a path back to its start, in order, are a ring. */
  lemma PathIsRing(info: map<Node, ModuleInfo>, x: Node, p: seq<Node>)
    requires IsPath(DependencyGraph(info), x, p, x) && |p| > 1
    ensures IsRing(info, [x] + p[..|p| - 1])
  {
    var ring := [x] + p[..|p| - 1];
    forall u, v | Follows(ring, u, v)
      ensures RefersTo(info, u, v)
    {
      var i :| 0 <= i < |ring| && ring[i] == u && v == ring[if i + 1 < |ring| then i + 1 else 0];
      PathSteps(DependencyGraph(info), x, p, x, i);
      EdgeIsReference(info, u, v);
    }
  }

  lemma {:induction false} PathEnds(g: Graph, x: Node, p: seq<Node>, y: Node)
    requires IsPath(g, x, p, y) && x != y
    ensures p != [] && y == p[|p| - 1]
    decreases p
  {
    PathSteps(g, x, p, y, 0);
  }

  /** Two modules that reach each other lie on a common ring. */
  lemma MutualMeansRing(info: map<Node, ModuleInfo>, x: Node, y: Node) returns (ring: seq<Node>)
    requires Mutual(DependencyGraph(info), x, y) && x != y
    ensures IsRing(info, ring) && x in ring && y in ring
  {
    var g := DependencyGraph(info);
    var p :| IsPath(g, x, p, y);
    var q :| IsPath(g, y, q, x);
    PathConcat(g, x, p, y, q, x);
    PathEnds(g, x, p, y);
    PathEnds(g, y, q, x);
    PathIsRing(info, x, p + q);
    ring := [x] + (p + q)[..|p + q| - 1];
    assert ring[|p|] == y;
  }

  lemma RingSharesCycle(info: map<Node, ModuleInfo>, sccs: seq<seq<Node>>, ring: seq<Node>)
    requires IsCondensation(DependencyGraph(info), sccs) && IsRing(info, ring)
    ensures exists c :: c in sccs && |c| > 1 && forall n :: n in ring ==> n in c
  {
    hide Closed, PairwiseDisjoint, Reach, ClosedWalk, IsRing, DependencyGraph;
    var g := DependencyGraph(info);
    RingIsWalk(info, ring);
    RingStarts(info, ring);
    WalkIsMutual(g, ring, ring[0], ring[1]);
    WalkIsMutual(g, ring, ring[1], ring[0]);
    MutualShareCycle(g, sccs, ring[0], ring[1]);
    var c :| c in sccs && |c| > 1 && ring[0] in c && ring[1] in c;
    forall n | n in ring
      ensures n in c
    {
      WalkIsMutual(g, ring, ring[0], n);
      WalkIsMutual(g, ring, n, ring[0]);
      MutualIsMember(g, c, ring[0], n);
    }
  }

  lemma RingStarts(info: map<Node, ModuleInfo>, ring: seq<Node>)
    requires IsRing(info, ring)
    ensures |ring| > 1 && ring[0] in ring && ring[1] in ring && ring[0] != ring[1] && ring[0] in DependencyGraph(info)
  {
    FollowsAt(ring, 0);
  }

  /** Any two members of a cycle lie on a ring, and so does each of them. */
  lemma CycleHasRing(info: map<Node, ModuleInfo>, c: seq<Node>, x: Node, y: Node) returns (ring: seq<Node>)
    requires IsComponent(DependencyGraph(info), c) && |c| > 1 && x in c && y in c
    ensures IsRing(info, ring) && x in ring && y in ring
  {
    hide IsRing, Reach, DependencyGraph;
    var z := if x != y then y else if c[0] == x then c[1] else c[0];
    assert Mutual(DependencyGraph(info), x, z);
    ring := MutualMeansRing(info, x, z);
  }

  lemma MemberRefersToMember(info: map<Node, ModuleInfo>, c: seq<Node>, n: Node)
    requires IsComponent(DependencyGraph(info), c) && |c| > 1 && n in c
    ensures exists d :: d in c && RefersTo(info, n, d)
  {
    hide Reach, DependencyGraph, RefersTo;
    var g := DependencyGraph(info);
    var y := if c[0] == n then c[1] else c[0];
    assert Mutual(g, n, y);
    var d := PathLeavesByEdge(g, n, y);
    ReachEdge(g, n, d);
    ReachTrans(g, d, y, n);
    MutualIsMember(g, c, n, d);
    EdgeIsReference(info, n, d);
  }

  /**
   * Lists the dependency cycles. Two modules share a cycle of the list exactly when they lie on a common ring of
   * references; there is no cycle exactly when the dependency graph is acyclic.
   */
  method Cycles(info: map<Node, ModuleInfo>) returns (cycles: seq<seq<Node>>)
    ensures forall ring :: IsRing(info, ring) ==> exists c :: c in cycles && forall n :: n in ring ==> n in c
    ensures forall c, x, y :: c in cycles && x in c && y in c ==>
              exists ring :: IsRing(info, ring) && x in ring && y in ring
    ensures forall c, n :: c in cycles && n in c ==>
              n in info && info[n].facade != Fully && exists d :: d in c && RefersTo(info, n, d)
    ensures cycles == [] <==> Acyclic(DependencyGraph(info))
    ensures forall c :: c in cycles ==> |c| > 1 && IsComponent(DependencyGraph(info), c)
    ensures PairwiseDisjoint(cycles)
    ensures forall x, y :: x != y && x in DependencyGraph(info) && Mutual(DependencyGraph(info), x, y) ==>
              exists c :: c in cycles && x in c && y in c
  {
    hide Reach, Closed, PairwiseDisjoint, Acyclic, Mutual, IsRing;
    var g := DependencyGraph(info);
    var sccs := Tarjan.StronglyConnectedComponents(g);
    cycles := MultiNode(sccs);
    NoCyclesIffAcyclic(g, sccs, cycles);
    forall x, y | x != y && x in g && Mutual(g, x, y)
      ensures exists c :: c in cycles && x in c && y in c
    {
      MutualShareCycle(g, sccs, x, y);
    }
    forall ring | IsRing(info, ring)
      ensures exists c :: c in cycles && forall n :: n in ring ==> n in c
    {
      RingSharesCycle(info, sccs, ring);
    }
    forall c, x, y | c in cycles && x in c && y in c
      ensures exists ring :: IsRing(info, ring) && x in ring && y in ring
    {
      var ring := CycleHasRing(info, c, x, y);
    }
    forall c, n | c in cycles && n in c
      ensures n in info && info[n].facade != Fully && exists d :: d in c && RefersTo(info, n, d)
    {
      MemberRefersToMember(info, c, n);
    }
  }

  // ---------- evicting a module from its cycle ----------

  /** The graph after cutting the edges from `n` into `cut` and turning round those into `inverted`. */
  function ReworkEdges(g: Graph, n: Node, cut: set<Node>, inverted: set<Node>): Graph {
    map x | x in g.Keys + inverted ::
      if x == n then Succ(g, n) - cut - inverted else if x in inverted then Succ(g, x) + {n} else Succ(g, x)
  }

  /** Edges of `n` into the rest of its component. */
  ghost predicate CycleEdgesOf(g: Graph, c: seq<Node>, n: Node, targets: set<Node>) {
    forall d :: d in targets ==> d in Succ(g, n) && d in c && d != n
  }

  /** Inverting edges inside a component connects nothing that was not connected before. */
  lemma {:induction false} ReworkedPath(
      g: Graph, c: seq<Node>, n: Node, cut: set<Node>, inverted: set<Node>, x: Node, p: seq<Node>, y: Node)
    requires IsComponent(g, c) && n in c && CycleEdgesOf(g, c, n, inverted)
    requires IsPath(ReworkEdges(g, n, cut, inverted), x, p, y)
    ensures Reach(g, x, y)
    decreases p
  {
    if p == [] {
      ReachRefl(g, x);
    } else {
      ReworkedPath(g, c, n, cut, inverted, p[0], p[1..], y);
      if p[0] in Succ(g, x) {
        ReachEdge(g, x, p[0]);
      } else {
        assert x in inverted && p[0] == n && Mutual(g, x, n);
      }
      ReachTrans(g, x, p[0], y);
    }
  }

  lemma ReworkedReach(g: Graph, c: seq<Node>, n: Node, cut: set<Node>, inverted: set<Node>, x: Node, y: Node)
    requires IsComponent(g, c) && n in c && CycleEdgesOf(g, c, n, inverted)
    requires Reach(ReworkEdges(g, n, cut, inverted), x, y)
    ensures Reach(g, x, y)
  {
    var p :| IsPath(ReworkEdges(g, n, cut, inverted), x, p, y);
    ReworkedPath(g, c, n, cut, inverted, x, p, y);
  }

  /** A path survives unless it could pass through `n`. */
  lemma {:induction false} PathSurvives(
      g: Graph, n: Node, cut: set<Node>, inverted: set<Node>, x: Node, p: seq<Node>, y: Node)
    requires IsPath(g, x, p, y) && !(Reach(g, x, n) && Reach(g, n, y))
    ensures IsPath(ReworkEdges(g, n, cut, inverted), x, p, y)
    decreases p
  {
    if p != [] {
      ReachRefl(g, x);
      assert x != n;
      ReachEdge(g, x, p[0]);
      if Reach(g, p[0], n) {
        ReachTrans(g, x, p[0], n);
      }
      PathSurvives(g, n, cut, inverted, p[0], p[1..], y);
    }
  }

  /** Whatever reaches `n` still does: a walk up to its first visit to `n` uses no edge out of `n`. */
  lemma {:induction false} StillReaches(
      g: Graph, n: Node, cut: set<Node>, inverted: set<Node>, x: Node, p: seq<Node>)
    requires IsPath(g, x, p, n)
    ensures Reach(ReworkEdges(g, n, cut, inverted), x, n)
    decreases p
  {
    var h := ReworkEdges(g, n, cut, inverted);
    if x == n {
      ReachRefl(h, n);
    } else {
      StillReaches(g, n, cut, inverted, p[0], p[1..]);
      ReachEdge(h, x, p[0]);
      ReachTrans(h, x, p[0], n);
    }
  }

  lemma MutualIsMember(g: Graph, c: seq<Node>, x: Node, y: Node)
    requires IsComponent(g, c) && x in c && Reach(g, x, y) && Reach(g, y, x)
    ensures y in c
  {
    assert Mutual(g, x, y);
  }

  /** If `n` is still on a cycle, some edge of `n` into its component was neither cut nor inverted. */
  lemma StillOnCycle(g: Graph, c: seq<Node>, n: Node, cut: set<Node>, inverted: set<Node>, y: Node)
    requires IsComponent(g, c) && n in c && CycleEdgesOf(g, c, n, inverted)
    requires y != n && Mutual(ReworkEdges(g, n, cut, inverted), n, y)
    ensures exists d :: d in Succ(g, n) && d in c && d != n && d !in cut + inverted
  {
    var h := ReworkEdges(g, n, cut, inverted);
    var p :| IsPath(h, n, p, y);
    LastDeparture(h, n, p, y);
    var z :| z in Succ(h, n) && z != n && Reach(h, z, y);
    ReachTrans(h, z, y, n);
    ReworkedReach(g, c, n, cut, inverted, z, n);
    assert z in Succ(g, n);
    ReachEdge(g, n, z);
    MutualIsMember(g, c, n, z);
  }

  /** A module leaves its cycle exactly when each of its edges into the rest of the cycle is cut or inverted. */
  lemma EvictedIffAllReworked(g: Graph, c: seq<Node>, n: Node, cut: set<Node>, inverted: set<Node>)
    requires IsComponent(g, c) && n in c && CycleEdgesOf(g, c, n, inverted)
    ensures IsComponent(ReworkEdges(g, n, cut, inverted), [n])
            <==> forall d :: d in Succ(g, n) && d in c && d != n ==> d in cut + inverted
  {
    hide ReworkEdges, Reach;
    var h := ReworkEdges(g, n, cut, inverted);
    if forall d :: d in Succ(g, n) && d in c && d != n ==> d in cut + inverted {
      forall y
        ensures y in [n] <==> Mutual(h, n, y)
      {
        ReachRefl(h, n);
        if y != n && Mutual(h, n, y) {
          StillOnCycle(g, c, n, cut, inverted, y);
        }
      }
    }
    if IsComponent(h, [n]) {
      forall d | d in Succ(g, n) && d in c && d != n
        ensures d in cut + inverted
      {
        if d !in cut + inverted {
          LeftEdgeKeeps(g, c, n, cut, inverted, d);
          MutualIsMember(h, [n], n, d);
          assert false;
        }
      }
    }
  }

  lemma LeftEdgeKeeps(g: Graph, c: seq<Node>, n: Node, cut: set<Node>, inverted: set<Node>, d: Node)
    requires IsComponent(g, c) && n in c && d in c && d in Succ(g, n) && d !in cut + inverted
    ensures var h := ReworkEdges(g, n, cut, inverted); Reach(h, n, d) && Reach(h, d, n)
  {
    assert Mutual(g, n, d);
    var p :| IsPath(g, d, p, n);
    StillReaches(g, n, cut, inverted, d, p);
    ReachEdge(ReworkEdges(g, n, cut, inverted), n, d);
  }

  lemma {:induction false} LastDeparture(h: Graph, n: Node, p: seq<Node>, y: Node)
    requires IsPath(h, n, p, y) && y != n
    ensures exists z :: z in Succ(h, n) && z != n && Reach(h, z, y)
    decreases p
  {
    if p[0] == n {
      LastDeparture(h, n, p[1..], y);
    } else {
      assert Reach(h, p[0], y);
    }
  }

  /** Reworking `n`'s edges into its own component `own` leaves every other component as it was. */
  lemma OtherComponentsKept(
      g: Graph, own: seq<Node>, c: seq<Node>, n: Node, cut: set<Node>, inverted: set<Node>)
    requires IsComponent(g, own) && n in own && CycleEdgesOf(g, own, n, inverted)
    requires IsComponent(g, c) && n !in c
    ensures IsComponent(ReworkEdges(g, n, cut, inverted), c)
  {
    hide ReworkEdges, Reach;
    var h := ReworkEdges(g, n, cut, inverted);
    forall x, y | x in c
      ensures y in c <==> Mutual(h, x, y)
    {
      if Mutual(h, x, y) {
        ReworkedReach(g, own, n, cut, inverted, x, y);
        ReworkedReach(g, own, n, cut, inverted, y, x);
      }
      if y in c {
        assert Mutual(g, x, y);
        KeptReach(g, c, n, cut, inverted, x, y);
        KeptReach(g, c, n, cut, inverted, y, x);
      }
    }
  }

  lemma KeptReach(g: Graph, c: seq<Node>, n: Node, cut: set<Node>, inverted: set<Node>, x: Node, y: Node)
    requires IsComponent(g, c) && n !in c && x in c && y in c
    ensures Reach(ReworkEdges(g, n, cut, inverted), x, y)
  {
    assert Mutual(g, x, y);
    if Reach(g, x, n) && Reach(g, n, y) {
      ReachTrans(g, n, y, x);
      MutualIsMember(g, c, x, n);
      assert false;
    }
    var p :| IsPath(g, x, p, y);
    PathSurvives(g, n, cut, inverted, x, p, y);
  }
}
