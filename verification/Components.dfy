/** Strongly connected components, and the invariant of the search that finds them. */
module Components {
  import opened Graphs
  import opened Utils

  // ---------- what the result means ----------

  ghost function Emitted(comps: seq<seq<Node>>): set<Node> {
    set i, x | 0 <= i < |comps| && x in comps[i] :: x
  }

  /** `c` is exactly the class of mutually reachable nodes of each of its members. */
  ghost predicate IsComponent(g: Graph, c: seq<Node>) {
    && c != []
    && NoDuplicates(c)
    && forall x, y :: x in c ==> (y in c <==> Mutual(g, x, y))
  }

  ghost predicate PairwiseDisjoint(comps: seq<seq<Node>>) {
    forall i, j, x :: 0 <= i < j < |comps| && x in comps[i] ==> x !in comps[j]
  }

  /** Every prefix of the emission order is closed under edges: leaves first. */
  ghost predicate ReverseTopological(g: Graph, comps: seq<seq<Node>>) {
    forall k :: 0 <= k <= |comps| ==> Closed(g, Emitted(comps[..k]))
  }

  ghost predicate IsCondensation(g: Graph, comps: seq<seq<Node>>) {
    && Emitted(comps) == Nodes(g)
    && PairwiseDisjoint(comps)
    && (forall i :: 0 <= i < |comps| ==> IsComponent(g, comps[i]))
    && ReverseTopological(g, comps)
  }

  // ---------- the search state and its invariant ----------

  /** The variables `strongconnect` shares with its caller, except the low links. */
  datatype State = State(
    counter: nat,
    stack: seq<Node>,
    onStack: map<Node, bool>,
    index: map<Node, nat>,
    comps: seq<seq<Node>>)

  ghost predicate StackSorted(s: State) {
    && (forall i :: 0 <= i < |s.stack| ==> s.stack[i] in s.index)
    && (forall i, j :: 0 <= i < j < |s.stack| ==> s.index[s.stack[i]] < s.index[s.stack[j]])
  }

  ghost predicate Numbered(g: Graph, s: State) {
    && s.index.Keys <= Nodes(g)
    && (forall x :: x in s.index ==> s.index[x] < s.counter)
    && StackSorted(s)
    && (forall x :: x in s.index <==> x in s.stack || x in Emitted(s.comps))
    && (forall x :: x in s.stack ==> x !in Emitted(s.comps))
  }

  ghost predicate FlagsMatch(s: State) {
    forall x :: (x in s.onStack && s.onStack[x]) <==> x in s.stack
  }

  /** Finished nodes (numbered and not active) have no unnumbered successor. */
  ghost predicate FinishedClosed(g: Graph, active: set<Node>, s: State) {
    forall x, y :: x in s.index && x !in active && y in Succ(g, x) ==> y in s.index
  }

  /** A stack node reaches every stack node above it. */
  ghost predicate StackAscends(g: Graph, s: State) {
    forall i, j :: 0 <= i <= j < |s.stack| ==> Reach(g, s.stack[i], s.stack[j])
  }

  ghost predicate Anchored(g: Graph, active: set<Node>, s: State, y: Node) {
    exists x :: x in active && x in s.index && y in s.index && s.index[x] <= s.index[y] && Reach(g, y, x)
  }

  ghost predicate AllAnchored(g: Graph, active: set<Node>, s: State) {
    forall y {:trigger Anchored(g, active, s, y)} :: y in s.stack ==> Anchored(g, active, s, y)
  }

  ghost predicate Inv(g: Graph, active: set<Node>, s: State) {
    && Numbered(g, s)
    && FlagsMatch(s)
    && (forall x :: x in active ==> x in s.stack)
    && FinishedClosed(g, active, s)
    && StackAscends(g, s)
    && AllAnchored(g, active, s)
    && PairwiseDisjoint(s.comps)
    && (forall i :: 0 <= i < |s.comps| ==> IsComponent(g, s.comps[i]))
    && ReverseTopological(g, s.comps)
  }

  /** What a search leaves alone: earlier numbers, the stack below, earlier components. */
  ghost predicate Extends(s: State, t: State) {
    && (forall x :: x in s.index ==> x in t.index && t.index[x] == s.index[x])
    && s.stack <= t.stack
    && s.comps <= t.comps
    && s.counter <= t.counter
    && (forall x :: x in t.stack[|s.stack|..] ==> x !in s.index && t.index.Keys >= {x} && s.counter <= t.index[x])
  }

  // ---------- the three state changes ----------

  /** Numbering an unvisited node and pushing it on the stack. */
  function Push(s: State, v: Node): State {
    State(s.counter + 1, s.stack + [v], s.onStack[v := true], s.index[v := s.counter], s.comps)
  }

  lemma PushNumbers(g: Graph, s: State, v: Node)
    requires Numbered(g, s) && v in Nodes(g) && v !in s.index
    ensures Numbered(g, Push(s, v)) && Extends(s, Push(s, v))
  {
  }

  lemma PushAscends(g: Graph, active: set<Node>, s: State, v: Node)
    requires StackAscends(g, s) && AllAnchored(g, active, s)
    requires forall x :: x in active ==> Reach(g, x, v)
    ensures StackAscends(g, Push(s, v))
  {
    forall i | 0 <= i < |s.stack|
      ensures Reach(g, s.stack[i], v)
    {
      assert Anchored(g, active, s, s.stack[i]);
      var x :| x in active && Reach(g, s.stack[i], x);
      ReachTrans(g, s.stack[i], x, v);
    }
    ReachRefl(g, v);
  }

  lemma PushAnchors(g: Graph, active: set<Node>, s: State, v: Node)
    requires AllAnchored(g, active, s)
    requires v !in s.index
    ensures AllAnchored(g, active + {v}, Push(s, v))
  {
    var t := Push(s, v);
    ReachRefl(g, v);
    forall y | y in t.stack
      ensures Anchored(g, active + {v}, t, y)
    {
      if y == v {
        assert v in t.index;
      } else {
        assert Anchored(g, active, s, y);
        var x :| x in active && x in s.index && y in s.index && s.index[x] <= s.index[y] && Reach(g, y, x);
        assert x in t.index && t.index[x] <= t.index[y];
      }
    }
  }

  lemma PushKeepsInv(g: Graph, active: set<Node>, s: State, v: Node)
    requires Inv(g, active, s) && v in Nodes(g) && v !in s.index
    requires forall x :: x in active ==> Reach(g, x, v)
    ensures Inv(g, active + {v}, Push(s, v))
    ensures Extends(s, Push(s, v))
  {
    PushNumbers(g, s, v);
    PushAscends(g, active, s, v);
    PushAnchors(g, active, s, v);
  }

  /** If `v` reaches a lower stack node `low`, then `v` may stop being active. */
  lemma FinishAnchors(g: Graph, active: set<Node>, s: State, v: Node, low: Node)
    requires AllAnchored(g, active + {v}, s) && v in s.index && low in s.stack
    requires low in s.index && s.index[low] < s.index[v] && Reach(g, v, low)
    ensures AllAnchored(g, active, s)
  {
    assert Anchored(g, active + {v}, s, low);
    var a :| a in active + {v} && a in s.index && s.index[a] <= s.index[low] && Reach(g, low, a);
    ReachTrans(g, v, low, a);
    forall y | y in s.stack
      ensures Anchored(g, active, s, y)
    {
      assert Anchored(g, active + {v}, s, y);
      var x :| x in active + {v} && x in s.index && s.index[x] <= s.index[y] && Reach(g, y, x);
      if x == v {
        ReachTrans(g, y, v, a);
        assert a in active && s.index[a] <= s.index[y];
      } else {
        assert x in active;
      }
    }
  }

  lemma FinishCloses(g: Graph, active: set<Node>, s: State, v: Node)
    requires FinishedClosed(g, active + {v}, s) && Succ(g, v) <= s.index.Keys
    ensures FinishedClosed(g, active, s)
  {
  }

  /** A node that is not the root of its component just stops being active. */
  lemma FinishKeepsInv(g: Graph, active: set<Node>, s: State, v: Node, low: Node)
    requires Inv(g, active + {v}, s) && v in s.stack
    requires Succ(g, v) <= s.index.Keys
    requires low in s.stack && s.index[low] < s.index[v] && Reach(g, v, low)
    ensures Inv(g, active, s)
  {
    assert Anchored(g, active + {v}, s, low);
    FinishCloses(g, active, s, v);
    FinishAnchors(g, active, s, v, low);
  }

  /** Cutting the stack back to `base` and emitting what was above it as `c`; `flags` is the new `on_stack`. */
  function Emit(s: State, base: nat, c: seq<Node>, flags: map<Node, bool>): State
    requires base <= |s.stack|
  {
    s.(stack := s.stack[..base], onStack := flags, comps := s.comps + [c])
  }

  ghost predicate IsReversal(c: seq<Node>, t: seq<Node>) {
    |c| == |t| && forall i :: 0 <= i < |c| ==> c[i] == t[|t| - 1 - i]
  }

  lemma EmittedSnoc(comps: seq<seq<Node>>, c: seq<Node>)
    ensures Emitted(comps + [c]) == Emitted(comps) + set x | x in c
  {
    forall x | x in Emitted(comps) + set x | x in c
      ensures x in Emitted(comps + [c])
    {
      if x in c {
        assert (comps + [c])[|comps|] == c;
      } else {
        var i :| 0 <= i < |comps| && x in comps[i];
        assert (comps + [c])[i] == comps[i];
      }
    }
  }

  ghost predicate NoEdgeBelow(g: Graph, s: State, base: nat)
    requires base <= |s.stack|
  {
    forall x, y :: x in s.stack[base..] && y in Succ(g, x) ==> y !in s.stack[..base]
  }

  /** Everything the root of a component can reach is on the stack above it or was emitted before. */
  lemma TopClosed(g: Graph, active: set<Node>, s: State, base: nat, c: seq<Node>)
    requires Numbered(g, s) && FinishedClosed(g, active, s) && Closed(g, Emitted(s.comps))
    requires base <= |s.stack| && IsReversal(c, s.stack[base..]) && NoEdgeBelow(g, s, base)
    requires forall x :: x in active ==> x in s.stack[..base]
    ensures Closed(g, Emitted(s.comps + [c]))
  {
    hide Numbered, FinishedClosed, NoEdgeBelow;
    EmittedSnoc(s.comps, c);
    ReversalMembers(c, s.stack[base..]);
    forall x, y | x in Emitted(s.comps + [c]) && y in Succ(g, x)
      ensures y in Emitted(s.comps + [c])
    {
      if x in c {
        TopSuccessor(g, active, s, base, x, y);
      }
    }
  }

  lemma TopSuccessor(g: Graph, active: set<Node>, s: State, base: nat, x: Node, y: Node)
    requires Numbered(g, s) && FinishedClosed(g, active, s) && base <= |s.stack| && NoEdgeBelow(g, s, base)
    requires forall z :: z in active ==> z in s.stack[..base]
    requires x in s.stack[base..] && y in Succ(g, x)
    ensures y in s.stack[base..] || y in Emitted(s.comps)
  {
    StackSplits(g, s, base, x);
    hide StackSorted;
    assert y in s.index && y !in s.stack[..base];
    if y in s.stack {
      assert s.stack == s.stack[..base] + s.stack[base..];
    }
  }

  lemma ReversalMembers(c: seq<Node>, t: seq<Node>)
    requires IsReversal(c, t)
    ensures forall x :: x in c <==> x in t
  {
    forall x | x in t
      ensures x in c
    {
      var i :| 0 <= i < |t| && t[i] == x;
      assert c[|t| - 1 - i] == x;
    }
  }

  lemma StackSplits(g: Graph, s: State, base: nat, x: Node)
    requires Numbered(g, s) && base <= |s.stack| && x in s.stack[base..]
    ensures x in s.stack && x in s.index && x !in s.stack[..base]
  {
  }

  /** Whatever sits at or above an active stack node whose anchors are at or below it is mutual with it. */
  lemma TopMutual(g: Graph, active: set<Node>, s: State, base: nat, y: Node)
    requires StackSorted(s) && StackAscends(g, s) && base < |s.stack| && y in s.stack[base..]
    requires Anchored(g, active + {s.stack[base]}, s, y)
    requires forall x :: x in active ==> x in s.stack[..base]
    ensures Mutual(g, s.stack[base], y)
  {
    var v := s.stack[base];
    var x :| x in active + {v} && Reach(g, y, x);
    assert exists i :: 0 <= i <= base && s.stack[i] == x;
    var i :| 0 <= i <= base && s.stack[i] == x;
    assert Reach(g, s.stack[i], s.stack[base]);
    ReachTrans(g, y, x, v);
    var j :| base <= j < |s.stack| && s.stack[j] == y;
    assert Reach(g, s.stack[base], s.stack[j]);
  }

  lemma TopIsComponent(g: Graph, active: set<Node>, s: State, base: nat, c: seq<Node>)
    requires Numbered(g, s) && StackAscends(g, s) && base < |s.stack|
    requires AllAnchored(g, active + {s.stack[base]}, s)
    requires forall x :: x in active ==> x in s.stack[..base]
    requires IsReversal(c, s.stack[base..])
    requires Closed(g, Emitted(s.comps)) && Closed(g, Emitted(s.comps + [c]))
    ensures IsComponent(g, c)
  {
    var v := s.stack[base];
    ReversalMembers(c, s.stack[base..]);
    EmittedSnoc(s.comps, c);
    forall x, y | x in c
      ensures y in c <==> Mutual(g, x, y)
    {
      assert x in s.stack && Anchored(g, active + {v}, s, x);
      TopMutual(g, active, s, base, x);
      if y in c {
        assert y in s.stack && Anchored(g, active + {v}, s, y);
        TopMutual(g, active, s, base, y);
        ReachTrans(g, x, v, y);
        ReachTrans(g, y, v, x);
      }
      if Mutual(g, x, y) {
        ReachStaysClosed(g, Emitted(s.comps + [c]), x, y);
        if y in Emitted(s.comps) {
          ReachStaysClosed(g, Emitted(s.comps), y, x);
        }
      }
    }
  }

  lemma EmitNumbers(g: Graph, s: State, base: nat, c: seq<Node>, flags: map<Node, bool>)
    requires Numbered(g, s) && base <= |s.stack| && IsReversal(c, s.stack[base..])
    ensures Numbered(g, Emit(s, base, c, flags))
    ensures forall x :: x in c ==> x !in Emitted(s.comps)
  {
    EmittedSnoc(s.comps, c);
    ReversalMembers(c, s.stack[base..]);
    assert s.stack == s.stack[..base] + s.stack[base..];
    forall x | x in s.stack[..base]
      ensures x !in c
    {
      if x in s.stack[base..] {
        StackSplits(g, s, base, x);
      }
    }
  }

  lemma EmitAnchors(g: Graph, active: set<Node>, s: State, base: nat, c: seq<Node>, flags: map<Node, bool>)
    requires Numbered(g, s) && base < |s.stack|
    requires AllAnchored(g, active + {s.stack[base]}, s)
    ensures AllAnchored(g, active, Emit(s, base, c, flags))
  {
    forall y | y in s.stack[..base]
      ensures Anchored(g, active, Emit(s, base, c, flags), y)
    {
      assert y in s.stack && Anchored(g, active + {s.stack[base]}, s, y);
      var x :| x in active + {s.stack[base]} && x in s.index && s.index[x] <= s.index[y] && Reach(g, y, x);
      assert s.index[y] < s.index[s.stack[base]];
    }
  }

  lemma AllClosed(g: Graph, comps: seq<seq<Node>>)
    requires ReverseTopological(g, comps)
    ensures Closed(g, Emitted(comps))
  {
    assert comps[..|comps|] == comps;
  }

  lemma EmitComponents(g: Graph, s: State, c: seq<Node>)
    requires PairwiseDisjoint(s.comps) && ReverseTopological(g, s.comps) && IsComponent(g, c)
    requires forall i :: 0 <= i < |s.comps| ==> IsComponent(g, s.comps[i])
    requires Closed(g, Emitted(s.comps + [c]))
    requires forall x :: x in c ==> x !in Emitted(s.comps)
    ensures PairwiseDisjoint(s.comps + [c]) && ReverseTopological(g, s.comps + [c])
    ensures forall i :: 0 <= i < |s.comps + [c]| ==> IsComponent(g, (s.comps + [c])[i])
  {
    forall k | 0 <= k <= |s.comps + [c]|
      ensures Closed(g, Emitted((s.comps + [c])[..k]))
    {
      if k <= |s.comps| {
        assert (s.comps + [c])[..k] == s.comps[..k];
      } else {
        assert (s.comps + [c])[..k] == s.comps + [c];
      }
    }
  }

  lemma EmitSettles(g: Graph, active: set<Node>, s: State, base: nat, c: seq<Node>)
    requires base < |s.stack| && Inv(g, active + {s.stack[base]}, s)
    requires forall x :: x in active ==> x in s.stack[..base]
    requires Succ(g, s.stack[base]) <= s.index.Keys && NoEdgeBelow(g, s, base)
    requires IsReversal(c, s.stack[base..])
    ensures PairwiseDisjoint(s.comps + [c]) && ReverseTopological(g, s.comps + [c])
    ensures forall i :: 0 <= i < |s.comps + [c]| ==> IsComponent(g, (s.comps + [c])[i])
  {
    AllClosed(g, s.comps);
    FinishCloses(g, active, s, s.stack[base]);
    TopClosed(g, active, s, base, c);
    TopIsComponent(g, active, s, base, c);
    ReversalMembers(c, s.stack[base..]);
    EmitComponents(g, s, c);
  }

  /** The root of a component is emitted together with everything above it on the stack. */
  lemma EmitKeepsInv(g: Graph, active: set<Node>, s: State, base: nat, c: seq<Node>, flags: map<Node, bool>)
    requires base < |s.stack| && Inv(g, active + {s.stack[base]}, s)
    requires forall x :: x in active ==> x in s.stack[..base]
    requires FlagsMatch(Emit(s, base, c, flags))
    requires Succ(g, s.stack[base]) <= s.index.Keys && NoEdgeBelow(g, s, base)
    requires IsReversal(c, s.stack[base..])
    ensures Inv(g, active, Emit(s, base, c, flags))
  {
    hide Numbered, IsComponent, Closed, PairwiseDisjoint, ReverseTopological, AllAnchored, Reach;
    FinishCloses(g, active, s, s.stack[base]);
    EmitSettles(g, active, s, base, c);
    EmitNumbers(g, s, base, c, flags);
    EmitAnchors(g, active, s, base, c, flags);
  }
}
