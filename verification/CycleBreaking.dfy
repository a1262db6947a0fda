/** From the module table to a set of references whose removal turns a reported cycle into a DAG. */
module CycleBreaking {
  import opened Graphs
  import opened Components
  import opened CycleReport
  import opened FeedbackArcs
  import opened Utils

  /** `ref_counts.get(d, 1)`. */
  function References(m: ModuleInfo, d: Node): nat {
    if d in m.refCounts then m.refCounts[d] else 1
  }

  /** The weighted graph of one cycle: the members' references to other members. */
  function CycleEdges(info: map<Node, ModuleInfo>, cycle: set<Node>): Weighted
    requires cycle <= info.Keys
  {
    map n | n in cycle :: map d | d in info[n].outbound && d in cycle && d != n :: References(info[n], d)
  }

  /** The dependency graph restricted to `cycle`, without the edges in `back` and with those in `inverted` reversed. */
  function RestrictedGraph(g: Graph, cycle: set<Node>, back: set<Edge>, inverted: set<Edge>): Graph {
    map n | n in g && n in cycle ::
      (set d | d in g[n] && d in cycle && (n, d) !in back)
      + (set d | d in cycle && n in Succ(g, d) && (d, n) in inverted)
  }

  lemma CycleMembersAreModules(info: map<Node, ModuleInfo>, c: seq<Node>, x: Node)
    requires IsComponent(DependencyGraph(info), c) && |c| > 1 && x in c
    ensures x in DependencyGraph(info)
  {
    var y := if c[0] == x then c[1] else c[0];
    assert y in c && y != x && Mutual(DependencyGraph(info), x, y);
    var z := PathLeavesByEdge(DependencyGraph(info), x, y);
  }

  lemma SameEdge(info: map<Node, ModuleInfo>, cycle: set<Node>, u: Node, v: Node)
    requires cycle <= DependencyGraph(info).Keys && u in cycle
    ensures cycle <= info.Keys && CycleEdges(info, cycle).Keys == cycle
    ensures v in CycleEdges(info, cycle)[u] <==> v in cycle && v in DependencyGraph(info)[u]
    ensures v in CycleEdges(info, cycle)[u] ==> v != u
  {
  }

  lemma SameSuccessor(
      info: map<Node, ModuleInfo>, cycle: set<Node>, back: set<Edge>, inverted: set<Edge>, u: Node, v: Node)
    requires cycle <= DependencyGraph(info).Keys && cycle <= CycleEdges(info, cycle).Keys && u in cycle
    ensures v in ForwardGraph(cycle, CycleEdges(info, cycle), back, inverted)[u]
            <==> v in RestrictedGraph(DependencyGraph(info), cycle, back, inverted)[u]
  {
    hide DependencyGraph, CycleEdges;
    SameEdge(info, cycle, u, v);
    if v in cycle {
      SameEdge(info, cycle, v, u);
    }
  }

  lemma CycleEdgesMatchGraph(info: map<Node, ModuleInfo>, cycle: set<Node>, back: set<Edge>, inverted: set<Edge>)
    requires cycle <= DependencyGraph(info).Keys
    ensures Closes(cycle, CycleEdges(info, cycle))
    ensures forall u :: u in cycle ==> u !in CycleEdges(info, cycle)[u]
    ensures ForwardGraph(cycle, CycleEdges(info, cycle), back, inverted)
            == RestrictedGraph(DependencyGraph(info), cycle, back, inverted)
  {
    var g := DependencyGraph(info);
    var forward := ForwardGraph(cycle, CycleEdges(info, cycle), back, inverted);
    var restricted := RestrictedGraph(g, cycle, back, inverted);
    MatchBySuccessor(cycle, forward, restricted) by {
      hide DependencyGraph, CycleEdges;
      forall u, v | u in cycle
        ensures v in forward[u] <==> v in restricted[u]
      {
        SameSuccessor(info, cycle, back, inverted, u, v);
      }
    }
  }

  lemma MatchBySuccessor(keys: set<Node>, g: Graph, h: Graph)
    requires g.Keys == keys && h.Keys == keys
    requires forall u, v :: u in keys ==> (v in g[u] <==> v in h[u])
    ensures g == h
  {
    forall u | u in keys
      ensures g[u] == h[u]
    {
    }
  }

  /** `lines` are edges inside `cycle`, and it is a DAG once each of them is cut or inverted. */
  ghost predicate Breaks(g: Graph, cycle: seq<Node>, lines: seq<Line>) {
    && (forall l :: l in lines ==> l.1 in cycle && l.2 in cycle && l.2 in Succ(g, l.1))
    && forall inverted :: inverted <= EdgeSet(lines) ==>
         Acyclic(RestrictedGraph(g, Elements(cycle), EdgeSet(lines), inverted))
  }

  /** Every ring inside a cycle goes through a listed reference. */
  lemma RingIsCut(info: map<Node, ModuleInfo>, cycle: seq<Node>, lines: seq<Line>, ring: seq<Node>)
    requires Breaks(DependencyGraph(info), cycle, lines)
    requires IsRing(info, ring) && forall n :: n in ring ==> n in cycle
    ensures exists l :: l in lines && Follows(ring, l.1, l.2)
  {
    hide DependencyGraph, IsRing, Acyclic;
    RingIsWalk(info, ring);
    var r := RestrictedGraph(DependencyGraph(info), Elements(cycle), EdgeSet(lines), {});
    assert Acyclic(r);
    if forall l :: l in lines ==> !Follows(ring, l.1, l.2) {
      UncutRing(DependencyGraph(info), cycle, lines, ring);
      WalkHasCycle(r, ring);
      assert false;
    }
  }

  lemma UncutRing(g: Graph, cycle: seq<Node>, lines: seq<Line>, ring: seq<Node>)
    requires ClosedWalk(g, ring) && forall n :: n in ring ==> n in cycle
    requires forall l :: l in lines ==> !Follows(ring, l.1, l.2)
    ensures ClosedWalk(RestrictedGraph(g, Elements(cycle), EdgeSet(lines), {}), ring)
  {
    forall x, y | Follows(ring, x, y)
      ensures y in Succ(RestrictedGraph(g, Elements(cycle), EdgeSet(lines), {}), x)
    {
      assert x in ring && y in ring;
      if (x, y) in EdgeSet(lines) {
        var l := EdgeIsLine(lines, (x, y));
        assert false;
      }
    }
  }

  lemma WalkHasCycle(g: Graph, ring: seq<Node>)
    requires ClosedWalk(g, ring)
    ensures !Acyclic(g)
  {
    var y := ring[if 1 < |ring| then 1 else 0];
    FollowsAt(ring, 0);
    WalkIsMutual(g, ring, y, ring[0]);
  }

  /** What the weighted graph of a cycle is made of: a reference without a count weighs one. */
  lemma CycleEdgesMean(info: map<Node, ModuleInfo>, cycle: set<Node>, n: Node, d: Node)
    requires cycle <= info.Keys && n in cycle
    ensures d in CycleEdges(info, cycle)[n] <==> d in cycle && d != n && d in info[n].outbound
    ensures d in CycleEdges(info, cycle)[n] ==>
              CycleEdges(info, cycle)[n][d] == if d in info[n].refCounts then info[n].refCounts[d] else 1
  {
  }

  /** For any reported cycle: references, at most half of those inside it; cutting or inverting each leaves a DAG. */
  method BreakCycle(info: map<Node, ModuleInfo>, cycle: seq<Node>) returns (lines: seq<Line>, totalBack: nat)
    requires IsComponent(DependencyGraph(info), cycle) && |cycle| > 1
    ensures Elements(cycle) <= info.Keys
    ensures forall inverted :: inverted <= EdgeSet(lines) ==>
              Acyclic(RestrictedGraph(DependencyGraph(info), Elements(cycle), EdgeSet(lines), inverted))
    ensures Breaks(DependencyGraph(info), cycle, lines)
    ensures forall ring :: IsRing(info, ring) && (forall n :: n in ring ==> n in cycle) ==>
              exists l :: l in lines && Follows(ring, l.1, l.2)
    ensures totalBack == SumLines(lines) == Total(CycleEdges(info, Elements(cycle)), EdgeSet(lines))
    ensures 2 * totalBack <= Total(CycleEdges(info, Elements(cycle)),
                                   Edges(Elements(cycle), CycleEdges(info, Elements(cycle))))
    ensures forall l :: l in lines ==>
              && l.1 in cycle && l.2 in cycle && RefersTo(info, l.1, l.2)
              && l.0 == if l.2 in info[l.1].refCounts then info[l.1].refCounts[l.2] else 1
  {
    hide Acyclic, ForwardGraph, RestrictedGraph, Total, Mutual, DependencyGraph, IsRing, RefersTo, Follows;
    ghost var g := DependencyGraph(info);
    forall x | x in cycle
      ensures x in g
    {
      CycleMembersAreModules(info, cycle, x);
    }
    GraphKeysAreModules(info);
    var out := CycleEdges(info, Elements(cycle));
    CycleEdgesMatchGraph(info, Elements(cycle), {}, {});
    lines, totalBack := FeedbackReport(cycle, out);
    forall inverted | inverted <= EdgeSet(lines)
      ensures Acyclic(RestrictedGraph(g, Elements(cycle), EdgeSet(lines), inverted))
    {
      CycleEdgesMatchGraph(info, Elements(cycle), EdgeSet(lines), inverted);
    }
    forall l | l in lines
      ensures l.1 in cycle && l.2 in info[l.1].outbound && l.2 in cycle && l.0 == References(info[l.1], l.2)
      ensures l.2 in Succ(g, l.1) && RefersTo(info, l.1, l.2)
    {
      LineIsReference(info, Elements(cycle), lines, l);
      EdgeIsReference(info, l.1, l.2);
    }
    forall ring | IsRing(info, ring) && forall n :: n in ring ==> n in cycle
      ensures exists l :: l in lines && Follows(ring, l.1, l.2)
    {
      RingIsCut(info, cycle, lines, ring);
    }
  }

  lemma GraphKeysAreModules(info: map<Node, ModuleInfo>)
    ensures DependencyGraph(info).Keys <= info.Keys
  {
  }

  lemma LineIsReference(info: map<Node, ModuleInfo>, cycle: set<Node>, lines: seq<Line>, l: Line)
    requires cycle <= info.Keys && l in lines
    requires Lists(CycleEdges(info, cycle), lines, EdgeSet(lines))
    requires EdgeSet(lines) <= Edges(cycle, CycleEdges(info, cycle))
    ensures cycle <= DependencyGraph(info).Keys ==> l.2 in Succ(DependencyGraph(info), l.1)
    ensures l.1 in cycle && l.2 in info[l.1].outbound && l.2 in cycle && l.0 == References(info[l.1], l.2)
  {
    assert (l.1, l.2) in EdgeSet(lines);
    var i :| 0 <= i < |lines| && lines[i] == l;
  }

  // ---------- all cycles at once ----------

  function AllEdges(lines: seq<seq<Line>>): set<Edge> {
    set i, e | 0 <= i < |lines| && e in EdgeSet(lines[i]) :: e
  }

  /** `cycles` are the cycles of the report on `g`, and `lines[i]` are the edges listed for `cycles[i]`. */
  ghost predicate Report(g: Graph, cycles: seq<seq<Node>>, lines: seq<seq<Line>>) {
    && |lines| == |cycles| && PairwiseDisjoint(cycles)
    && (forall i :: 0 <= i < |cycles| ==> IsComponent(g, cycles[i]) && Breaks(g, cycles[i], lines[i]))
    && forall x, y :: x != y && x in g && Mutual(g, x, y) ==> exists c :: c in cycles && x in c && y in c
  }

  lemma EdgeIsLine(lines: seq<Line>, e: Edge) returns (l: Line)
    requires e in EdgeSet(lines)
    ensures l in lines && (l.1, l.2) == e
  {
    l :| l in lines && (l.1, l.2) == e;
  }

  /** A listed edge lies inside its cycle. */
  lemma ListedInside(g: Graph, cycles: seq<seq<Node>>, lines: seq<seq<Line>>, e: Edge) returns (i: nat)
    requires Report(g, cycles, lines) && e in AllEdges(lines)
    ensures i < |cycles| && e in EdgeSet(lines[i]) && e.0 in cycles[i] && e.1 in cycles[i]
  {
    i :| 0 <= i < |lines| && e in EdgeSet(lines[i]);
    var l := EdgeIsLine(lines[i], e);
  }

  /** Inverting listed edges connects nothing that was not connected before. */
  lemma EdgeWasReach(
      g: Graph, cycles: seq<seq<Node>>, lines: seq<seq<Line>>, inverted: set<Edge>, x: Node, y: Node)
    requires Report(g, cycles, lines) && inverted <= AllEdges(lines)
    requires y in Succ(RestrictedGraph(g, g.Keys, AllEdges(lines), inverted), x)
    ensures Reach(g, x, y)
  {
    hide Report, AllEdges;
    if y in Succ(g, x) {
      ReachEdge(g, x, y);
    } else {
      var i := ListedInside(g, cycles, lines, (y, x));
      InsideReach(g, cycles, lines, i, x, y);
    }
  }

  lemma InsideReach(g: Graph, cycles: seq<seq<Node>>, lines: seq<seq<Line>>, i: nat, x: Node, y: Node)
    requires Report(g, cycles, lines) && i < |cycles| && x in cycles[i] && y in cycles[i]
    ensures Reach(g, x, y)
  {
    hide Breaks, PairwiseDisjoint;
    assert IsComponent(g, cycles[i]) && Mutual(g, x, y);
  }

  lemma {:induction false} PathWasReach(
      g: Graph, cycles: seq<seq<Node>>, lines: seq<seq<Line>>, inverted: set<Edge>, x: Node, p: seq<Node>, y: Node)
    requires Report(g, cycles, lines) && inverted <= AllEdges(lines)
    requires IsPath(RestrictedGraph(g, g.Keys, AllEdges(lines), inverted), x, p, y)
    ensures Reach(g, x, y)
    decreases p
  {
    hide Report, RestrictedGraph, AllEdges;
    if p == [] {
      ReachRefl(g, x);
    } else {
      EdgeWasReach(g, cycles, lines, inverted, x, p[0]);
      PathWasReach(g, cycles, lines, inverted, p[0], p[1..], y);
      ReachTrans(g, x, p[0], y);
    }
  }

  /** Between members of one cycle the whole graph has only the edges of that cycle's own graph. */
  lemma EdgeInside(
      g: Graph, cycles: seq<seq<Node>>, lines: seq<seq<Line>>, inverted: set<Edge>, i: nat, x: Node, y: Node)
    requires Report(g, cycles, lines) && inverted <= AllEdges(lines) && i < |cycles|
    requires x in cycles[i] && y in cycles[i]
    requires y in Succ(RestrictedGraph(g, g.Keys, AllEdges(lines), inverted), x)
    ensures y in Succ(RestrictedGraph(
                        g, Elements(cycles[i]), EdgeSet(lines[i]), inverted * EdgeSet(lines[i])), x)
  {
    hide Breaks, IsComponent, Mutual;
    if (y, x) in inverted {
      var k := ListedInside(g, cycles, lines, (y, x));
      assert k == i;
    }
  }

  /** A path that starts and ends in one cycle stays inside it. */
  lemma {:induction false} PathInside(
      g: Graph, cycles: seq<seq<Node>>, lines: seq<seq<Line>>, inverted: set<Edge>, i: nat,
      x: Node, p: seq<Node>, y: Node)
    requires Report(g, cycles, lines) && inverted <= AllEdges(lines) && i < |cycles|
    requires x in cycles[i] && y in cycles[i]
    requires IsPath(RestrictedGraph(g, g.Keys, AllEdges(lines), inverted), x, p, y)
    ensures IsPath(RestrictedGraph(
                     g, Elements(cycles[i]), EdgeSet(lines[i]), inverted * EdgeSet(lines[i])), x, p, y)
    decreases p
  {
    hide Report, RestrictedGraph, AllEdges, Elements, EdgeSet, Reach;
    if p != [] {
      var v := p[0];
      EdgeWasReach(g, cycles, lines, inverted, x, v);
      PathWasReach(g, cycles, lines, inverted, v, p[1..], y);
      InsideReach(g, cycles, lines, i, y, x);
      ReachTrans(g, v, y, x);
      MemberOf(g, cycles, lines, i, x, v);
      EdgeInside(g, cycles, lines, inverted, i, x, v);
      PathInside(g, cycles, lines, inverted, i, v, p[1..], y);
    }
  }

  lemma MemberOf(g: Graph, cycles: seq<seq<Node>>, lines: seq<seq<Line>>, i: nat, x: Node, y: Node)
    requires Report(g, cycles, lines) && i < |cycles| && x in cycles[i] && Reach(g, x, y) && Reach(g, y, x)
    ensures y in cycles[i]
  {
    hide Breaks, PairwiseDisjoint, Reach;
    MutualIsMember(g, cycles[i], x, y);
  }

  lemma SharedCycle(g: Graph, cycles: seq<seq<Node>>, lines: seq<seq<Line>>, x: Node, y: Node) returns (i: nat)
    requires Report(g, cycles, lines) && x in g && x != y && Reach(g, x, y) && Reach(g, y, x)
    ensures i < |cycles| && x in cycles[i] && y in cycles[i]
  {
    hide Breaks, PairwiseDisjoint, Reach, IsComponent;
    assert Mutual(g, x, y);
    var c :| c in cycles && x in c && y in c;
    i :| 0 <= i < |cycles| && cycles[i] == c;
  }

  lemma ProperEdge(g: Graph, back: set<Edge>, inverted: set<Edge>, x: Node, y: Node)
    requires SelfLoopFree(g) && y in Succ(RestrictedGraph(g, g.Keys, back, inverted), x)
    ensures x in g && x != y
  {
    assert x !in Succ(g, x);
  }

  /** Cutting or inverting the edges listed for every cycle leaves the whole dependency graph a DAG. */
  lemma BreakingEveryCycle(g: Graph, cycles: seq<seq<Node>>, lines: seq<seq<Line>>, inverted: set<Edge>)
    requires Report(g, cycles, lines) && SelfLoopFree(g) && inverted <= AllEdges(lines)
    ensures Acyclic(RestrictedGraph(g, g.Keys, AllEdges(lines), inverted))
  {
    hide Report, AllEdges, Elements, EdgeSet, IsPath;
    var h := RestrictedGraph(g, g.Keys, AllEdges(lines), inverted);
    forall x, y | y in Succ(h, x)
      ensures !Reach(h, y, x)
    {
      if Reach(h, y, x) {
        var p :| IsPath(h, y, p, x);
        EdgeWasReach(g, cycles, lines, inverted, x, y);
        PathWasReach(g, cycles, lines, inverted, y, p, x);
        ProperEdge(g, AllEdges(lines), inverted, x, y);
        var i := SharedCycle(g, cycles, lines, x, y);
        EdgeInside(g, cycles, lines, inverted, i, x, y);
        PathInside(g, cycles, lines, inverted, i, y, p, x);
        CycleIsBroken(g, cycles, lines, inverted, i, x, y);
        assert false;
      }
    }
  }

  lemma CycleIsBroken(
      g: Graph, cycles: seq<seq<Node>>, lines: seq<seq<Line>>, inverted: set<Edge>, i: nat, x: Node, y: Node)
    requires Report(g, cycles, lines) && i < |cycles|
    ensures var r := RestrictedGraph(g, Elements(cycles[i]), EdgeSet(lines[i]), inverted * EdgeSet(lines[i]));
      y in Succ(r, x) ==> !Reach(r, y, x)
  {
    hide RestrictedGraph, Reach, Elements, EdgeSet, IsComponent, PairwiseDisjoint;
    var inside := inverted * EdgeSet(lines[i]);
    assert inside <= EdgeSet(lines[i]);
  }
}
