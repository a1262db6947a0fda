/** Tarjan's search for strongly connected components, as in scripts/analyze_root_crate.py. */
module Tarjan {
  import opened Graphs
  import opened Components
  import opened Utils

  type LowLinks = map<Node, nat>

  // ---------- low links ----------

  ghost function Above(s: State, base: nat): set<Node>
    requires base <= |s.stack|
  {
    set x | x in s.stack[base..]
  }

  /** `l` is no greater than the number of any node of `ys` that lies on the stack below `base`. */
  ghost predicate Bounds(s: State, base: nat, l: nat, ys: set<Node>)
    requires base <= |s.stack|
  {
    forall y :: y in ys && y in s.stack[..base] && y in s.index ==> l <= s.index[y]
  }

  /** `links[v]` is at most `v`'s own number and is the number of a stack node that `v` reaches. */
  ghost predicate LowWitness(g: Graph, s: State, links: LowLinks, v: Node, low: Node) {
    && v in links && v in s.index && links[v] <= s.index[v]
    && low in s.stack && low in s.index && s.index[low] == links[v] && Reach(g, v, low)
  }

  ghost predicate KeepsLinks(s: State, links: LowLinks, links': LowLinks) {
    forall x :: x in s.index && x in links ==> x in links' && links'[x] == links[x]
  }

  /** What `strongconnect(v)` has done, started in `s` and finished in `t`. */
  ghost predicate Searched(g: Graph, active: set<Node>, s: State, v: Node, low: Node, t: State, links: LowLinks) {
    && Inv(g, active, t) && Extends(s, t)
    && v in t.index && t.index[v] == s.counter && v in links
    && (if v in t.stack then LowWitness(g, t, links, v, low) else links[v] == t.index[v])
    && forall x :: x in Above(t, |s.stack|) ==> Bounds(t, |s.stack|, links[v], Succ(g, x))
  }

  /** Between two successors of `v`: `s` is the state `v` was found in, `done` what the loop has seen, `t` now. */
  ghost predicate Exploring(
      g: Graph, active: set<Node>, s: State, v: Node, done: set<Node>, low: Node, t: State, links: LowLinks) {
    && Inv(g, active + {v}, t) && Extends(Push(s, v), t) && v !in s.index
    && LowWitness(g, t, links, v, low)
    && done <= t.index.Keys
    && |s.stack| < |t.stack|
    && Bounds(t, |s.stack|, links[v], done)
    && forall x :: x in Above(t, |s.stack| + 1) ==> Bounds(t, |s.stack|, links[v], Succ(g, x))
  }

  lemma StartExploring(g: Graph, active: set<Node>, s: State, v: Node, links: LowLinks)
    requires Inv(g, active, s) && v in Nodes(g) && v !in s.index
    requires forall x :: x in active ==> Reach(g, x, v)
    ensures Exploring(g, active, s, v, {}, v, Push(s, v), links[v := s.counter])
  {
    hide Inv;
    PushKeepsInv(g, active, s, v);
    ReachRefl(g, v);
  }

  lemma ExtendsTrans(s: State, t: State, u: State)
    requires Extends(s, t) && Extends(t, u)
    ensures Extends(s, u)
  {
    assert u.stack[|s.stack|..] == t.stack[|s.stack|..] + u.stack[|t.stack|..];
  }

  lemma PushExtends(s: State, v: Node)
    requires v !in s.index
    ensures Extends(s, Push(s, v))
  {
    assert Push(s, v).stack[|s.stack|..] == [v];
  }

  lemma BoundsInLarger(s: State, t: State, base: nat, mid: nat, l: nat, l': nat, ys: set<Node>)
    requires Extends(s, t) && base <= mid <= |s.stack| && Bounds(s, mid, l, ys) && l' <= l
    requires forall y :: y in s.stack ==> y in s.index
    ensures Bounds(t, base, l', ys)
  {
    forall y | y in ys && y in t.stack[..base] && y in t.index
      ensures l' <= t.index[y]
    {
      assert t.stack[..base] == s.stack[..mid][..base];
      assert y in s.stack[..mid];
    }
  }

  lemma StackNumbered(g: Graph, active: set<Node>, s: State)
    requires Inv(g, active, s)
    ensures forall y :: y in s.stack ==> y in s.index
    ensures forall y :: y in s.index ==> s.index[y] < s.counter
    ensures StackSorted(s)
    ensures forall x :: (x in s.onStack && s.onStack[x]) <==> x in s.stack
    ensures forall x :: x in active ==> x in s.stack
  {
    hide Reach, IsComponent, Closed, PairwiseDisjoint, ReverseTopological, AllAnchored;
  }

  /** Splits the nodes above `base` after a nested search into those that were there and those it added. */
  lemma AboveSplits(s: State, t: State, base: nat, x: Node)
    requires Extends(s, t) && base <= |s.stack| && x in Above(t, base)
    ensures x in Above(s, base) || x in Above(t, |s.stack|)
  {
    assert t.stack[base..] == s.stack[base..] + t.stack[|s.stack|..];
  }

  lemma WitnessAfterSearch(
      g: Graph, active: set<Node>, v: Node, w: Node, low: Node, mid: State, links: LowLinks,
      lowW: Node, t: State, links': LowLinks)
    requires Inv(g, active, mid) && LowWitness(g, mid, links, v, low)
    requires w in Succ(g, v) && Searched(g, active, mid, w, lowW, t, links') && KeepsLinks(mid, links, links')
    ensures v in links && v in links' && links'[v] == links[v]
    ensures LowWitness(g, t, links'[v := Min(links'[v], links'[w])], v, if links'[w] < links'[v] then lowW else low)
  {
    StackNumbered(g, active, mid);
    hide Inv, Reach, Bounds;
    assert v in mid.index && v in links;
    ReachEdge(g, v, w);
    if links'[w] < links'[v] {
      ReachTrans(g, v, w, lowW);
    }
  }

  /** Folding the low link of a freshly searched successor into `v`'s. */
  lemma AfterSearch(
      g: Graph, active: set<Node>, s: State, v: Node, w: Node, done: set<Node>, low: Node, mid: State, links: LowLinks,
      lowW: Node, t: State, links': LowLinks)
    requires Exploring(g, active, s, v, done, low, mid, links) && w in Succ(g, v) && w !in mid.index
    requires Searched(g, active + {v}, mid, w, lowW, t, links') && KeepsLinks(mid, links, links')
    ensures v in links'
    ensures Exploring(g, active, s, v, done + {w}, if links'[w] < links'[v] then lowW else low, t,
                      links'[v := Min(links'[v], links'[w])])
  {
    hide Inv, Reach, Bounds, LowWitness, Extends, StackSorted, KeepsLinks;
    StackNumbered(g, active + {v}, mid);
    WitnessAfterSearch(g, active + {v}, v, w, low, mid, links, lowW, t, links');
    ExtendsTrans(Push(s, v), mid, t);
    var base, l := |s.stack|, Min(links'[v], links'[w]);
    ExtendsPrefix(mid, t, base);
    AboveAfterSearch(g, mid, t, base, links[v], links'[w], l);
    BoundsInLarger(mid, t, base, base, links[v], l, done);
    BoundsWith(t, base, l, done, w);
  }

  lemma ExtendsPrefix(s: State, t: State, base: nat)
    requires Extends(s, t) && base <= |s.stack|
    ensures |s.stack| <= |t.stack| && t.stack[..base] == s.stack[..base] && s.index.Keys <= t.index.Keys
  {
  }

  lemma BoundsWith(t: State, base: nat, l: nat, ys: set<Node>, w: Node)
    requires base <= |t.stack| && Bounds(t, base, l, ys)
    requires w in t.stack[..base] && w in t.index ==> l <= t.index[w]
    ensures Bounds(t, base, l, ys + {w})
  {
  }

  lemma AboveAfterSearch(g: Graph, mid: State, t: State, base: nat, l: nat, lw: nat, l': nat)
    requires Extends(mid, t) && base < |mid.stack| && l' <= l && l' <= lw
    requires forall y :: y in mid.stack ==> y in mid.index
    requires forall x :: x in Above(mid, base + 1) ==> Bounds(mid, base, l, Succ(g, x))
    requires forall x :: x in Above(t, |mid.stack|) ==> Bounds(t, |mid.stack|, lw, Succ(g, x))
    ensures forall x :: x in Above(t, base + 1) ==> Bounds(t, base, l', Succ(g, x))
  {
    ExtendsPrefix(mid, t, base);
    hide Extends, Bounds;
    forall x | x in Above(t, base + 1)
      ensures Bounds(t, base, l', Succ(g, x))
    {
      AboveSplits(mid, t, base + 1, x);
      if x in Above(mid, base + 1) {
        BoundsInLarger(mid, t, base, base, l, l', Succ(g, x));
      } else {
        BoundsBelow(t, base, |mid.stack|, lw, l', Succ(g, x));
      }
    }
  }

  lemma BoundsBelow(t: State, base: nat, mid: nat, l: nat, l': nat, ys: set<Node>)
    requires base <= mid <= |t.stack| && Bounds(t, mid, l, ys) && l' <= l
    ensures Bounds(t, base, l', ys)
  {
    assert t.stack[..base] == t.stack[..mid][..base];
  }

  /** A successor met before: on the stack its number counts, otherwise it cannot lie below `v`. */
  lemma AfterSeen(
      g: Graph, active: set<Node>, s: State, v: Node, w: Node, done: set<Node>, low: Node, t: State, links: LowLinks)
    requires Exploring(g, active, s, v, done, low, t, links) && w in Succ(g, v) && w in t.index
    ensures w in t.stack ==> Exploring(g, active, s, v, done + {w}, if t.index[w] < links[v] then w else low, t,
                                       links[v := Min(links[v], t.index[w])])
    ensures w !in t.stack ==> Exploring(g, active, s, v, done + {w}, low, t, links)
  {
    hide Inv, Reach, Extends;
    ReachEdge(g, v, w);
    var base := |s.stack|;
    if w in t.stack {
      var l := Min(links[v], t.index[w]);
      BoundsBelow(t, base, base, links[v], l, done);
      forall x | x in Above(t, base + 1)
        ensures Bounds(t, base, l, Succ(g, x))
      {
        BoundsBelow(t, base, base, links[v], l, Succ(g, x));
      }
    }
  }

  /** All successors seen and the low link equals the number: `v` is the root of a component. */
  lemma FinishRoot(
      g: Graph, active: set<Node>, s: State, v: Node, low: Node, t: State, links: LowLinks,
      comp: seq<Node>, flags: map<Node, bool>)
    requires Inv(g, active, s) && Exploring(g, active, s, v, Succ(g, v), low, t, links) && links[v] == t.index[v]
    requires IsReversal(comp, t.stack[|s.stack|..]) && FlagsMatch(Emit(t, |s.stack|, comp, flags))
    ensures Searched(g, active, s, v, low, Emit(t, |s.stack|, comp, flags), links)
  {
    hide Inv, Reach;
    var base := |s.stack|;
    StackNumbered(g, active, s);
    StackNumbered(g, active + {v}, t);
    PushExtends(s, v);
    ExtendsTrans(s, Push(s, v), t);
    RootPopped(s, v, t);
    hide StackSorted;
    RootNoEdgeBelow(g, s, v, t, links);
    EmitKeepsInv(g, active, t, base, comp, flags);
  }

  lemma RootPopped(s: State, v: Node, t: State)
    requires Extends(Push(s, v), t)
    ensures |s.stack| < |t.stack| && t.stack[|s.stack|] == v && t.stack[..|s.stack|] == s.stack
    ensures v in t.index && t.index[v] == s.counter
  {
    assert Push(s, v).stack[|s.stack|] == v;
  }

  lemma RootNoEdgeBelow(g: Graph, s: State, v: Node, t: State, links: LowLinks)
    requires StackSorted(t) && Extends(Push(s, v), t) && v in links && v in t.index && links[v] == t.index[v]
    requires |s.stack| < |t.stack| && Bounds(t, |s.stack|, links[v], Succ(g, v))
    requires forall x :: x in Above(t, |s.stack| + 1) ==> Bounds(t, |s.stack|, links[v], Succ(g, x))
    ensures NoEdgeBelow(g, t, |s.stack|)
  {
    var base := |s.stack|;
    assert t.stack[base] == v;
    assert t.stack[base..] == [v] + t.stack[base + 1..];
    forall x | x in t.stack[base..]
      ensures forall y :: y in Succ(g, x) ==> y !in t.stack[..base]
    {
      assert x == v || x in Above(t, base + 1);
      NothingSmallerBelow(t, base, links[v], Succ(g, x));
    }
  }

  lemma NothingSmallerBelow(t: State, base: nat, l: nat, ys: set<Node>)
    requires StackSorted(t) && base < |t.stack| && l == t.index[t.stack[base]] && Bounds(t, base, l, ys)
    ensures forall y :: y in ys ==> y !in t.stack[..base]
  {
    forall y | y in t.stack[..base]
      ensures y in t.index && t.index[y] < l
    {
      var i :| 0 <= i < base && t.stack[i] == y;
    }
  }

  /** All successors seen and the low link below the number: `v` stays on the stack. */
  lemma FinishInner(g: Graph, active: set<Node>, s: State, v: Node, low: Node, t: State, links: LowLinks)
    requires Exploring(g, active, s, v, Succ(g, v), low, t, links) && links[v] != t.index[v]
    ensures Searched(g, active, s, v, low, t, links)
  {
    hide Inv, Reach, StackSorted, Extends, Bounds;
    StackNumbered(g, active + {v}, t);
    PushExtends(s, v);
    ExtendsTrans(s, Push(s, v), t);
    FinishKeepsInv(g, active, t, v, low);
    RootPopped(s, v, t);
    assert t.stack[|s.stack|..] == [v] + t.stack[|s.stack| + 1..];
  }

  lemma ActiveReach(g: Graph, active: set<Node>, v: Node, w: Node)
    requires w in Succ(g, v) && forall x :: x in active ==> Reach(g, x, v)
    ensures forall x :: x in active + {v} ==> Reach(g, x, w)
  {
    ReachEdge(g, v, w);
    forall x | x in active + {v}
      ensures Reach(g, x, w)
    {
      if x != v {
        ReachTrans(g, x, v, w);
      }
    }
  }

  lemma WhileExploring(
      g: Graph, active: set<Node>, s: State, v: Node, done: set<Node>, low: Node, t: State, links: LowLinks)
    requires Exploring(g, active, s, v, done, low, t, links)
    ensures Inv(g, active + {v}, t) && v in links && v in t.index && v !in s.index
    ensures s.index.Keys <= t.index.Keys && t.index.Keys <= Nodes(g)
    ensures forall x :: (x in t.onStack && t.onStack[x]) <==> x in t.stack
  {
    hide Reach, Bounds, StackSorted, AllAnchored, FinishedClosed, StackAscends;
    hide PairwiseDisjoint, ReverseTopological, IsComponent;
  }

  lemma AfterNested(g: Graph, active: set<Node>, s: State, v: Node, low: Node, t: State, links: LowLinks)
    requires Searched(g, active, s, v, low, t, links)
    ensures v in links && s.index.Keys <= t.index.Keys
  {
  }

  lemma AtEnd(g: Graph, active: set<Node>, s: State, v: Node, low: Node, t: State, links: LowLinks)
    requires Exploring(g, active, s, v, Succ(g, v), low, t, links)
    ensures v in links && v in t.index && StackSorted(t) && FlagsMatch(t)
    ensures |s.stack| < |t.stack| && t.stack[|s.stack|] == v
  {
    hide Inv, Extends, Reach, Bounds;
    StackNumbered(g, active + {v}, t);
    RootPopped(s, v, t);
  }

  lemma NothingVisited(g: Graph)
    ensures Inv(g, {}, State(0, [], map[], map[], []))
  {
  }

  /** With no search active the stack is empty, and the finished nodes are all the nodes there are. */
  lemma EverythingEmitted(g: Graph, s: State)
    requires Inv(g, {}, s) && g.Keys <= s.index.Keys
    ensures s.stack == [] && IsCondensation(g, s.comps)
  {
    hide IsComponent, Closed, PairwiseDisjoint, ReverseTopological, Reach;
    if s.stack != [] {
      if Anchored(g, {}, s, s.stack[0]) {}
      assert false;
    }
    forall x | x in Nodes(g)
      ensures x in s.index
    {
      if x !in g {
        var v :| v in g && x in g[v];
        assert x in Succ(g, v);
      }
    }
  }

  lemma PopKeepsFlags(s: State)
    requires s.stack != [] && FlagsMatch(s) && StackSorted(s)
    ensures var t := s.(stack := s.stack[..|s.stack| - 1], onStack := s.onStack[s.stack[|s.stack| - 1] := false]);
      FlagsMatch(t) && StackSorted(t)
  {
    var n := |s.stack| - 1;
    assert s.stack == s.stack[..n] + [s.stack[n]];
  }

  lemma KeepsLinksTrans(s: State, a: LowLinks, b: LowLinks, c: LowLinks)
    requires KeepsLinks(s, a, b) && KeepsLinks(s, b, c)
    ensures KeepsLinks(s, a, c)
  {
  }

  lemma KeepsLinksNew(s: State, a: LowLinks, v: Node)
    requires v !in s.index
    ensures KeepsLinks(s, a, a[v := s.counter])
  {
  }

  // ---------- the search itself ----------

  class Search {
    const g: Graph
    var counter: nat
    var stack: seq<Node>
    var onStack: map<Node, bool>
    var index: map<Node, nat>
    var lowlink: LowLinks
    var result: seq<seq<Node>>

    ghost function Now(): State
      reads this
    {
      State(counter, stack, onStack, index, result)
    }

    constructor (g: Graph)
      ensures this.g == g && Now() == State(0, [], map[], map[], [])
    {
      this.g := g;
      counter, stack, onStack, index, lowlink, result := 0, [], map[], map[], map[], [];
    }

    /** The pops at the root of a component: everything from `v` up, topmost first. */
    method PopComponent(v: Node, ghost base: nat) returns (comp: seq<Node>)
      requires base < |stack| && stack[base] == v
      requires StackSorted(Now()) && FlagsMatch(Now())
      modifies this`stack, this`onStack
      ensures stack == old(stack)[..base] && FlagsMatch(Now())
      ensures IsReversal(comp, old(stack)[base..])
    {
      hide FlagsMatch;
      ghost var full := stack;
      comp := [];
      while true
        invariant base < |stack| <= |full| && stack == full[..|stack|]
        invariant |comp| == |full| - |stack|
        invariant forall i :: 0 <= i < |comp| ==> comp[i] == full[|full| - 1 - i]
        invariant FlagsMatch(Now()) && StackSorted(Now())
        decreases |stack|
      {
        PopKeepsFlags(Now());
        var w := stack[|stack| - 1];
        stack := stack[..|stack| - 1];
        onStack := onStack[w := false];
        comp := comp + [w];
        if w == v {
          break;
        }
      }
    }

    /** One turn of the loop over the successors of `v`. */
    method VisitSuccessor(
        v: Node, w: Node, ghost active: set<Node>, ghost s: State, ghost done: set<Node>, ghost low: Node)
      returns (ghost low': Node)
      requires Exploring(g, active, s, v, done, low, Now(), lowlink) && w in Succ(g, v)
      requires forall x :: x in active ==> Reach(g, x, v)
      modifies this
      ensures Exploring(g, active, s, v, done + {w}, low', Now(), lowlink)
      ensures index.Keys >= old(index.Keys)
      ensures KeepsLinks(s, old(lowlink), lowlink)
      decreases Nodes(g) - index.Keys, 1
    {
      hide Exploring, Searched, Reach;
      low' := low;
      ghost var mid, links := Now(), lowlink;
      WhileExploring(g, active, s, v, done, low, mid, links);
      hide Inv;
      if w !in index {
        ActiveReach(g, active, v, w);
        ghost var lowW := StrongConnect(w, active + {v});
        AfterSearch(g, active, s, v, w, done, low, mid, links, lowW, Now(), lowlink);
        AfterNested(g, active + {v}, mid, w, lowW, Now(), lowlink);
        low' := if lowlink[w] < lowlink[v] then lowW else low;
        lowlink := lowlink[v := Min(lowlink[v], lowlink[w])];
      } else {
        AfterSeen(g, active, s, v, w, done, low, Now(), lowlink);
        if w in onStack && onStack[w] {
          low' := if index[w] < lowlink[v] then w else low;
          lowlink := lowlink[v := Min(lowlink[v], index[w])];
        }
      }
    }

    /** Numbers `v` and puts it on the stack. */
    method Enter(v: Node)
      modifies this
      ensures index.Keys == old(index.Keys) + {v}
      ensures Now() == Push(old(Now()), v) && lowlink == old(lowlink)[v := old(counter)]
    {
      index := index[v := counter];
      lowlink := lowlink[v := counter];
      counter := counter + 1;
      stack := stack + [v];
      onStack := onStack[v := true];
    }

    /** All successors of `v` seen: emit its component if `v` is the root of one. */
    method Leave(v: Node, ghost active: set<Node>, ghost s: State, ghost low: Node)
      requires Inv(g, active, s) && Exploring(g, active, s, v, Succ(g, v), low, Now(), lowlink)
      modifies this`stack, this`onStack, this`result
      ensures Searched(g, active, s, v, low, Now(), lowlink)
    {
      hide Exploring, Searched, Reach, Inv;
      ghost var t := Now();
      AtEnd(g, active, s, v, low, t, lowlink);
      if lowlink[v] == index[v] {
        var comp := PopComponent(v, |s.stack|);
        result := result + [comp];
        assert Now() == Emit(t, |s.stack|, comp, onStack);
        FinishRoot(g, active, s, v, low, t, lowlink, comp, onStack);
      } else {
        FinishInner(g, active, s, v, low, t, lowlink);
      }
    }

    /** Numbers `v`, searches what it leads to, and emits its component if `v` turns out to be the root of one. */
    method StrongConnect(v: Node, ghost active: set<Node>) returns (ghost low: Node)
      requires Inv(g, active, Now()) && v in Nodes(g) && v !in index
      requires forall x :: x in active ==> Reach(g, x, v)
      modifies this
      ensures Searched(g, active, old(Now()), v, low, Now(), lowlink)
      ensures KeepsLinks(old(Now()), old(lowlink), lowlink)
      decreases Nodes(g) - index.Keys, 0
    {
      hide Exploring, Searched, Reach, Inv, KeepsLinks, Push;
      ghost var s, links := Now(), lowlink;
      StartExploring(g, active, s, v, links);
      KeepsLinksNew(s, links, v);
      Enter(v);
      low := v;
      var todo := Succ(g, v);
      assert Succ(g, v) - todo == {};
      while todo != {}
        invariant todo <= Succ(g, v)
        invariant index.Keys >= s.index.Keys + {v}
        invariant Exploring(g, active, s, v, Succ(g, v) - todo, low, Now(), lowlink)
        invariant KeepsLinks(s, links, lowlink)
        decreases |todo|
      {
        var w :| w in todo;
        ghost var before := lowlink;
        low := VisitSuccessor(v, w, active, s, Succ(g, v) - todo, low);
        assert Succ(g, v) - (todo - {w}) == Succ(g, v) - todo + {w};
        KeepsLinksTrans(s, links, before, lowlink);
        todo := todo - {w};
      }
      assert Succ(g, v) - todo == Succ(g, v);
      Leave(v, active, s, low);
    }

    /** The outer loop over the keys, for whatever order they are sorted in. */
    method Run()
      requires Now() == State(0, [], map[], map[], [])
      modifies this
      ensures IsCondensation(g, result) && stack == []
    {
      NothingVisited(g);
      var todo := g.Keys;
      while todo != {}
        invariant todo <= g.Keys
        invariant Inv(g, {}, Now())
        invariant g.Keys - todo <= index.Keys
        decreases |todo|
      {
        hide Inv, Reach;
        var v :| v in todo;
        todo := todo - {v};
        if v !in index {
          ghost var s := Now();
          ghost var low := StrongConnect(v, {});
          AfterNested(g, {}, s, v, low, Now(), lowlink);
        }
      }
      EverythingEmitted(g, Now());
    }
  }

  /** The public entry point. */
  method StronglyConnectedComponents(g: Graph) returns (result: seq<seq<Node>>)
    ensures IsCondensation(g, result)
  {
    var search := new Search(g);
    search.Run();
    result := search.result;
  }
}
