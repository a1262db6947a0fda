/** The greedy vertex order of scripts/analyze_root_crate.py and the feedback arc set read off it. */
module FeedbackArcs {
  import opened Graphs
  import opened Components
  import opened Utils

  /** `out_edges`: node to (target to reference count). */
  type Weighted = map<Node, map<Node, nat>>
  type Edge = (Node, Node)

  /** What `eades_order` needs of its arguments: every node is a key and every target a node. */
  predicate Closes(vs: set<Node>, out: Weighted) {
    vs <= out.Keys && forall u, v :: u in vs && v in out[u] ==> v in vs
  }

  function Elements(s: seq<Node>): set<Node> {
    set x | x in s
  }

  function Edges(vs: set<Node>, out: Weighted): set<Edge>
    requires vs <= out.Keys
  {
    set u, v | u in vs && v in out[u] :: (u, v)
  }

  function Unweighted(vs: set<Node>, out: Weighted): Graph
    requires vs <= out.Keys
  {
    map u | u in vs :: out[u].Keys
  }

  // ---------- sums of edge weights ----------

  function Weight(out: Weighted, e: Edge): nat {
    if e.0 in out && e.1 in out[e.0] then out[e.0][e.1] else 0
  }

  ghost function Total(out: Weighted, es: set<Edge>): nat {
    if es == {} then 0 else var e :| e in es; Weight(out, e) + Total(out, es - {e})
  }

  lemma {:induction false} TotalRemove(out: Weighted, es: set<Edge>, e: Edge)
    requires e in es
    ensures Total(out, es) == Weight(out, e) + Total(out, es - {e})
  {
    var f :| f in es && Total(out, es) == Weight(out, f) + Total(out, es - {f});
    if f != e {
      TotalRemove(out, es - {f}, e);
      TotalRemove(out, es - {e}, f);
      assert es - {f} - {e} == es - {e} - {f};
    }
  }

  lemma {:induction false} TotalUnion(out: Weighted, a: set<Edge>, b: set<Edge>)
    requires a !! b
    ensures Total(out, a + b) == Total(out, a) + Total(out, b)
  {
    if a == {} {
      assert a + b == b;
    } else {
      var e :| e in a;
      TotalRemove(out, a, e);
      TotalRemove(out, a + b, e);
      assert a + b - {e} == (a - {e}) + b;
      TotalUnion(out, a - {e}, b);
    }
  }

  // ---------- edge sets ----------

  function OutOf(es: set<Edge>, n: Node, s: set<Node>): set<Edge> {
    set e | e in es && e.0 == n && e.1 in s
  }

  function Into(es: set<Edge>, n: Node, s: set<Node>): set<Edge> {
    set e | e in es && e.1 == n && e.0 in s
  }

  ghost function Inside(es: set<Edge>, s: set<Node>): set<Edge> {
    set e | e in es && e.0 in s && e.1 in s
  }

  ghost predicate Precedes(s: seq<Node>, x: Node, y: Node) {
    exists i, j :: 0 <= i < j < |s| && s[i] == x && s[j] == y
  }

  /** The edges that point backwards in the order `s`. */
  ghost function Back(es: set<Edge>, s: seq<Node>): set<Edge> {
    set e | e in es && Precedes(s, e.1, e.0)
  }

  ghost predicate Enumerates(s: seq<Node>, vs: set<Node>) {
    NoDuplicates(s) && forall x :: x in s <==> x in vs
  }

  lemma PrecedesCons(n: Node, m: seq<Node>, x: Node, y: Node)
    ensures Precedes([n] + m, x, y) <==> Precedes(m, x, y) || (x == n && y in m)
  {
    var s := [n] + m;
    if Precedes(m, x, y) {
      var i, j :| 0 <= i < j < |m| && m[i] == x && m[j] == y;
      assert s[i + 1] == x && s[j + 1] == y;
    }
    if x == n && y in m {
      var j :| 0 <= j < |m| && m[j] == y;
      assert s[0] == x && s[j + 1] == y;
    }
    if Precedes(s, x, y) {
      var i, j :| 0 <= i < j < |s| && s[i] == x && s[j] == y;
      assert s[j] == m[j - 1];
      if i > 0 {
        assert s[i] == m[i - 1];
      }
    }
  }

  lemma PrecedesSnoc(n: Node, m: seq<Node>, x: Node, y: Node)
    ensures Precedes(m + [n], x, y) <==> Precedes(m, x, y) || (y == n && x in m)
  {
    var s := m + [n];
    if Precedes(m, x, y) {
      var i, j :| 0 <= i < j < |m| && m[i] == x && m[j] == y;
      assert s[i] == x && s[j] == y;
    }
    if y == n && x in m {
      var i :| 0 <= i < |m| && m[i] == x;
      assert s[i] == x && s[|m|] == y;
    }
  }

  lemma BackCons(es: set<Edge>, n: Node, m: seq<Node>, r: set<Node>)
    requires forall x :: x in m <==> x in r
    ensures Back(es, [n] + m) == Back(es, m) + Into(es, n, r)
  {
    forall e | e in es
      ensures Precedes([n] + m, e.1, e.0) <==> Precedes(m, e.1, e.0) || (e.1 == n && e.0 in r)
    {
      PrecedesCons(n, m, e.1, e.0);
    }
  }

  lemma BackSnoc(es: set<Edge>, n: Node, m: seq<Node>, r: set<Node>)
    requires forall x :: x in m <==> x in r
    ensures Back(es, m + [n]) == Back(es, m) + OutOf(es, n, r)
  {
    forall e | e in es
      ensures Precedes(m + [n], e.1, e.0) <==> Precedes(m, e.1, e.0) || (e.0 == n && e.1 in r)
    {
      PrecedesSnoc(n, m, e.1, e.0);
    }
  }

  // ---------- what holds of every way to complete a partial order ----------

  /** The greedily picked nodes, each with the nodes that were still unplaced after it. */
  type Picks = map<Node, set<Node>>

  ghost predicate Picked(picks: Picks, e: Edge) {
    e.1 in picks && e.0 in picks[e.1]
  }

  /** Of the edges decided so far no more than half the weight points back, and what does enters a pick. */
  ghost predicate CompletionOk(vs: set<Node>, out: Weighted, s: seq<Node>, m: seq<Node>, r: set<Node>, picks: Picks)
    requires vs <= out.Keys
  {
    var es := Edges(vs, out);
    && Enumerates(s, vs)
    && 2 * Total(out, Back(es, s)) + Total(out, Inside(es, r)) <= 2 * Total(out, Back(es, m)) + Total(out, es)
    && forall e :: e in Back(es, s) ==> e in Back(es, m) || Picked(picks, e)
  }

  ghost predicate Placed(vs: set<Node>, out: Weighted, left: seq<Node>, r: set<Node>, right: seq<Node>, picks: Picks)
    requires vs <= out.Keys
  {
    forall m :: Enumerates(m, r) ==> CompletionOk(vs, out, left + m + right, m, r, picks)
  }

  lemma InsideSplits(out: Weighted, es: set<Edge>, r: set<Node>, n: Node)
    requires n in r
    ensures Total(out, Inside(es, r)) >=
            Total(out, Inside(es, r - {n})) + Total(out, Into(es, n, r - {n})) + Total(out, OutOf(es, n, r - {n}))
  {
    var r' := r - {n};
    var a, b, c := Inside(es, r'), Into(es, n, r'), OutOf(es, n, r');
    var rest := Inside(es, r) - (a + b + c);
    TotalUnion(out, a, b);
    TotalUnion(out, a + b, c);
    TotalUnion(out, a + b + c, rest);
    assert a + b + c + rest == Inside(es, r);
  }

  lemma ConsEnumerates(n: Node, m: seq<Node>, r: set<Node>)
    requires n in r && Enumerates(m, r - {n})
    ensures Enumerates([n] + m, r)
  {
  }

  lemma SnocEnumerates(n: Node, m: seq<Node>, r: set<Node>)
    requires n in r && Enumerates(m, r - {n})
    ensures Enumerates(m + [n], r)
  {
  }

  lemma CompleteLeft(
      vs: set<Node>, out: Weighted, left: seq<Node>, r: set<Node>, right: seq<Node>, picks: Picks, picks': Picks,
      n: Node, m: seq<Node>)
    requires Closes(vs, out) && Placed(vs, out, left, r, right, picks) && n in r && Enumerates(m, r - {n})
    requires Total(out, Into(Edges(vs, out), n, r - {n})) <= Total(out, OutOf(Edges(vs, out), n, r - {n}))
    requires forall e :: Picked(picks, e) || e in Into(Edges(vs, out), n, r - {n}) ==> Picked(picks', e)
    ensures CompletionOk(vs, out, left + [n] + m + right, m, r - {n}, picks')
  {
    var es := Edges(vs, out);
    ConsEnumerates(n, m, r);
    assert left + ([n] + m) + right == left + [n] + m + right;
    assert CompletionOk(vs, out, left + ([n] + m) + right, [n] + m, r, picks);
    BackCons(es, n, m, r - {n});
    assert Back(es, m) !! Into(es, n, r - {n});
    TotalUnion(out, Back(es, m), Into(es, n, r - {n}));
    InsideSplits(out, es, r, n);
  }

  lemma CompleteRight(
      vs: set<Node>, out: Weighted, left: seq<Node>, r: set<Node>, right: seq<Node>, picks: Picks,
      n: Node, m: seq<Node>)
    requires Closes(vs, out) && Placed(vs, out, left, r, right, picks) && n in r && Enumerates(m, r - {n})
    requires OutOf(Edges(vs, out), n, r) == {}
    ensures CompletionOk(vs, out, left + m + ([n] + right), m, r - {n}, picks)
  {
    var es := Edges(vs, out);
    SnocEnumerates(n, m, r);
    assert left + (m + [n]) + right == left + m + ([n] + right);
    assert CompletionOk(vs, out, left + (m + [n]) + right, m + [n], r, picks);
    BackSnoc(es, n, m, r - {n});
    assert OutOf(es, n, r - {n}) == {};
    assert Back(es, m + [n]) == Back(es, m);
    InsideSplits(out, es, r, n);
  }

  lemma PlaceLeft(
      vs: set<Node>, out: Weighted, left: seq<Node>, r: set<Node>, right: seq<Node>, picks: Picks, picks': Picks,
      n: Node)
    requires Closes(vs, out) && Placed(vs, out, left, r, right, picks) && n in r
    requires Total(out, Into(Edges(vs, out), n, r - {n})) <= Total(out, OutOf(Edges(vs, out), n, r - {n}))
    requires forall e :: Picked(picks, e) || e in Into(Edges(vs, out), n, r - {n}) ==> Picked(picks', e)
    ensures Placed(vs, out, left + [n], r - {n}, right, picks')
  {
    hide CompletionOk;
    forall m | Enumerates(m, r - {n})
      ensures CompletionOk(vs, out, left + [n] + m + right, m, r - {n}, picks')
    {
      CompleteLeft(vs, out, left, r, right, picks, picks', n, m);
    }
  }

  lemma PlaceRight(vs: set<Node>, out: Weighted, left: seq<Node>, r: set<Node>, right: seq<Node>, picks: Picks, n: Node)
    requires Closes(vs, out) && Placed(vs, out, left, r, right, picks) && n in r
    requires OutOf(Edges(vs, out), n, r) == {}
    ensures Placed(vs, out, left, r - {n}, [n] + right, picks)
  {
    hide CompletionOk;
    forall m | Enumerates(m, r - {n})
      ensures CompletionOk(vs, out, left + m + ([n] + right), m, r - {n}, picks)
    {
      CompleteRight(vs, out, left, r, right, picks, n, m);
    }
  }

  lemma NothingPlaced(vs: set<Node>, out: Weighted)
    requires Closes(vs, out)
    ensures Placed(vs, out, [], vs, [], map[])
  {
    forall m | Enumerates(m, vs)
      ensures CompletionOk(vs, out, [] + m + [], m, vs, map[])
    {
      assert [] + m + [] == m;
      assert Inside(Edges(vs, out), vs) == Edges(vs, out);
    }
  }

  lemma EverythingPlaced(vs: set<Node>, out: Weighted, left: seq<Node>, right: seq<Node>, picks: Picks)
    requires vs <= out.Keys && Placed(vs, out, left, {}, right, picks)
    ensures Enumerates(left + right, vs)
    ensures 2 * Total(out, Back(Edges(vs, out), left + right)) <= Total(out, Edges(vs, out))
    ensures forall e :: e in Back(Edges(vs, out), left + right) ==> Picked(picks, e)
  {
    assert Enumerates([], {});
    assert CompletionOk(vs, out, left + [] + right, [], {}, picks);
    assert left + [] + right == left + right;
    assert Back(Edges(vs, out), []) == {};
  }

  // ---------- the greedy pick ----------

  ghost function Score(out: Weighted, es: set<Edge>, n: Node, r: set<Node>): int {
    Total(out, OutOf(es, n, r)) - Total(out, Into(es, n, r))
  }

  ghost function From(es: set<Edge>, s: set<Node>, r: set<Node>): set<Edge> {
    set e | e in es && e.0 in s && e.1 in r
  }

  /** If every score over `s` is negative, the edges from `s` into `r` weigh less than those from `r` into `s`. */
  lemma {:induction false} NegativeScoresSum(out: Weighted, es: set<Edge>, s: set<Node>, r: set<Node>)
    requires forall n :: n in s ==> Score(out, es, n, r) < 0
    ensures Total(out, From(es, s, r)) + |s| <= Total(out, From(es, r, s))
  {
    if s == {} {
      assert From(es, s, r) == {} && From(es, r, s) == {};
    } else {
      var n :| n in s;
      assert Score(out, es, n, r) < 0;
      NegativeScoresSum(out, es, s - {n}, r);
      FromSplits(out, es, s, r, n);
    }
  }

  lemma FromSplits(out: Weighted, es: set<Edge>, s: set<Node>, r: set<Node>, n: Node)
    requires n in s
    ensures Total(out, From(es, s, r)) == Total(out, From(es, s - {n}, r)) + Total(out, OutOf(es, n, r))
    ensures Total(out, From(es, r, s)) == Total(out, From(es, r, s - {n})) + Total(out, Into(es, n, r))
  {
    TotalUnion(out, From(es, s - {n}, r), OutOf(es, n, r));
    TotalUnion(out, From(es, r, s - {n}), Into(es, n, r));
    assert From(es, s, r) == From(es, s - {n}, r) + OutOf(es, n, r);
    assert From(es, r, s) == From(es, r, s - {n}) + Into(es, n, r);
  }

  /** Scores sum to zero, so a largest one is not negative, and picking it decides no more weight back than forward. */
  lemma BestScoreNotNegative(out: Weighted, es: set<Edge>, r: set<Node>, pick: Node)
    requires pick in r && forall n :: n in r ==> Score(out, es, n, r) <= Score(out, es, pick, r)
    ensures Total(out, Into(es, pick, r - {pick})) <= Total(out, OutOf(es, pick, r - {pick}))
  {
    hide Total, Into, OutOf;
    if Score(out, es, pick, r) < 0 {
      NegativeScoresSum(out, es, r, r);
      assert false;
    }
    LoopsCancel(out, es, r, pick);
  }

  lemma LoopsCancel(out: Weighted, es: set<Edge>, r: set<Node>, n: Node)
    requires n in r
    ensures Total(out, OutOf(es, n, r)) - Total(out, Into(es, n, r))
            == Total(out, OutOf(es, n, r - {n})) - Total(out, Into(es, n, r - {n}))
  {
    hide Total;
    var loops := set e | e in es && e == (n, n);
    TotalUnion(out, Into(es, n, r - {n}), loops);
    TotalUnion(out, OutOf(es, n, r - {n}), loops);
    assert Into(es, n, r) == Into(es, n, r - {n}) + loops;
    assert OutOf(es, n, r) == OutOf(es, n, r - {n}) + loops;
  }

  // ---------- when the greedy pick is needed ----------

  ghost function ReachableIn(g: Graph, r: set<Node>, x: Node): set<Node> {
    set y | y in r && Reach(g, x, y)
  }

  /** In an acyclic graph one cannot keep moving along edges inside a finite set. */
  lemma {:induction false} AcyclicHasSink(g: Graph, r: set<Node>, x: Node) returns (sink: Node)
    requires Acyclic(g) && x in r
    ensures sink in r && Succ(g, sink) !! r
    decreases |ReachableIn(g, r, x)|
  {
    if Succ(g, x) !! r {
      sink := x;
    } else {
      var y :| y in Succ(g, x) && y in r;
      ReachRefl(g, x);
      ReachEdge(g, x, y);
      forall z | z in ReachableIn(g, r, y)
        ensures z in ReachableIn(g, r, x)
      {
        ReachTrans(g, x, y, z);
      }
      assert ReachableIn(g, r, y) < ReachableIn(g, r, x) by {
        assert x in ReachableIn(g, r, x) && x !in ReachableIn(g, r, y);
      }
      SmallerSet(ReachableIn(g, r, y), ReachableIn(g, r, x));
      sink := AcyclicHasSink(g, r, y);
    }
  }

  lemma {:induction false} SmallerSet(a: set<Node>, b: set<Node>)
    requires a < b
    ensures |a| < |b|
  {
    var x :| x in b && x !in a;
    if a != {} {
      var y :| y in a;
      SmallerSet(a - {y}, b - {y});
    }
  }

  // ---------- the algorithm ----------

  /** No edge of `n` leads into `remaining`. */
  predicate IsSink(out: Weighted, n: Node, remaining: set<Node>)
    requires n in out
  {
    forall v :: v in out[n] ==> v !in remaining
  }

  /** No edge from `remaining` leads into `n`. */
  predicate IsSource(vs: set<Node>, out: Weighted, n: Node, remaining: set<Node>)
    requires vs <= out.Keys
  {
    forall u :: u in vs && n in out[u] ==> u !in remaining
  }

  predicate NoSinks(vs: set<Node>, out: Weighted, r: set<Node>)
    requires r <= vs <= out.Keys
  {
    forall n :: n in r ==> !IsSink(out, n, r)
  }

  predicate NoSources(vs: set<Node>, out: Weighted, r: set<Node>)
    requires r <= vs <= out.Keys
  {
    forall n :: n in r ==> !IsSource(vs, out, n, r)
  }

  method SumWeights(out: Weighted, es: set<Edge>) returns (t: nat)
    ensures t == Total(out, es)
  {
    t := 0;
    var todo := es;
    while todo != {}
      invariant t + Total(out, todo) == Total(out, es)
      decreases |todo|
    {
      var e :| e in todo;
      TotalRemove(out, todo, e);
      t := t + Weight(out, e);
      todo := todo - {e};
    }
  }

  /** One scan of a snapshot of `remaining`, moving each node that is a sink by then to the front of `right`. */
  method SinkPass(
      vs: set<Node>, out: Weighted, ghost left: seq<Node>, r: set<Node>, right: seq<Node>, ghost picks: Picks)
      returns (remaining: set<Node>, right': seq<Node>, changed: bool)
    requires Closes(vs, out) && r <= vs && Placed(vs, out, left, r, right, picks)
    ensures remaining <= r && Placed(vs, out, left, remaining, right', picks)
    ensures changed <==> remaining < r
    ensures !changed ==> NoSinks(vs, out, r)
  {
    hide Placed;
    remaining, right', changed := r, right, false;
    var todo := r;
    while todo != {}
      invariant todo <= remaining <= r
      invariant changed <==> remaining < r
      invariant Placed(vs, out, left, remaining, right', picks)
      invariant !changed ==> forall n :: n in r - todo ==> !IsSink(out, n, r)
      decreases |todo|
    {
      var n :| n in todo;
      todo := todo - {n};
      if IsSink(out, n, remaining) {
        assert OutOf(Edges(vs, out), n, remaining) == {};
        PlaceRight(vs, out, left, remaining, right', picks, n);
        right' := [n] + right';
        remaining := remaining - {n};
        changed := true;
      }
    }
  }

  /** The same for sources, which are appended to `left`. */
  method SourcePass(
      vs: set<Node>, out: Weighted, left: seq<Node>, r: set<Node>, ghost right: seq<Node>, ghost picks: Picks)
      returns (remaining: set<Node>, left': seq<Node>, changed: bool)
    requires Closes(vs, out) && r <= vs && Placed(vs, out, left, r, right, picks)
    ensures remaining <= r && Placed(vs, out, left', remaining, right, picks)
    ensures changed <==> remaining < r
    ensures !changed ==> NoSources(vs, out, r)
  {
    hide Placed, Picked;
    remaining, left', changed := r, left, false;
    var todo := r;
    while todo != {}
      invariant todo <= remaining <= r
      invariant changed <==> remaining < r
      invariant Placed(vs, out, left', remaining, right, picks)
      invariant !changed ==> forall n :: n in r - todo ==> !IsSource(vs, out, n, r)
      decreases |todo|
    {
      var n :| n in todo;
      todo := todo - {n};
      if IsSource(vs, out, n, remaining) {
        assert Into(Edges(vs, out), n, remaining - {n}) == {};
        PlaceLeft(vs, out, left', remaining, right, picks, picks, n);
        left' := left' + [n];
        remaining := remaining - {n};
        changed := true;
      }
    }
  }

  /** A node of `r` whose outgoing weight exceeds its incoming weight the most. */
  method BestPick(vs: set<Node>, out: Weighted, r: set<Node>) returns (pick: Node)
    requires vs <= out.Keys && r != {}
    ensures pick in r
    ensures forall n :: n in r ==> Score(out, Edges(vs, out), n, r) <= Score(out, Edges(vs, out), pick, r)
  {
    var es := Edges(vs, out);
    pick :| pick in r;
    var o := SumWeights(out, OutOf(es, pick, r));
    var i := SumWeights(out, Into(es, pick, r));
    var best: int := o - i;
    var todo := r - {pick};
    while todo != {}
      invariant todo <= r && pick in r && best == Score(out, es, pick, r)
      invariant forall n :: n in r - todo ==> Score(out, es, n, r) <= best
      decreases |todo|
    {
      var n :| n in todo;
      todo := todo - {n};
      o := SumWeights(out, OutOf(es, n, r));
      i := SumWeights(out, Into(es, n, r));
      if o - i > best {
        pick, best := n, o - i;
      }
    }
  }

  lemma AcyclicHasASink(vs: set<Node>, out: Weighted, r: set<Node>)
    requires Closes(vs, out) && r <= vs && r != {} && Acyclic(Unweighted(vs, out))
    ensures !NoSinks(vs, out, r)
  {
    var x :| x in r;
    var sink := AcyclicHasSink(Unweighted(vs, out), r, x);
    assert out[sink].Keys == Succ(Unweighted(vs, out), sink);
    assert IsSink(out, sink, r);
  }

  /** `p` was picked from `r`: nothing there was a sink or a source, and no node there scored higher. */
  ghost predicate GreedyChoice(vs: set<Node>, out: Weighted, p: Node, r: set<Node>)
    requires vs <= out.Keys
  {
    && p in r && r <= vs && NoSinks(vs, out, r) && NoSources(vs, out, r)
    && forall n :: n in r ==> Score(out, Edges(vs, out), n, r) <= Score(out, Edges(vs, out), p, r)
  }

  ghost predicate AllGreedy(vs: set<Node>, out: Weighted, picks: Picks)
    requires vs <= out.Keys
  {
    forall p :: p in picks ==> GreedyChoice(vs, out, p, picks[p] + {p})
  }

  /** Alternates the two passes until neither moves anything. */
  method PeelEnds(vs: set<Node>, out: Weighted, left: seq<Node>, r: set<Node>, right: seq<Node>, ghost picks: Picks)
      returns (left': seq<Node>, remaining: set<Node>, right': seq<Node>)
    requires Closes(vs, out) && r <= vs && Placed(vs, out, left, r, right, picks)
    ensures remaining <= r && Placed(vs, out, left', remaining, right', picks)
    ensures NoSinks(vs, out, remaining) && NoSources(vs, out, remaining)
  {
    hide Placed, NoSinks, NoSources;
    left', remaining, right' := left, r, right;
    var changed := true;
    while changed
      invariant remaining <= r && Placed(vs, out, left', remaining, right', picks)
      invariant !changed ==> NoSinks(vs, out, remaining) && NoSources(vs, out, remaining)
      decreases |remaining|, changed
    {
      ghost var start := remaining;
      var sunk, sourced;
      remaining, right', sunk := SinkPass(vs, out, left', remaining, right', picks);
      ghost var mid := remaining;
      remaining, left', sourced := SourcePass(vs, out, left', remaining, right', picks);
      changed := sunk || sourced;
      if changed {
        SmallerSet(remaining, start);
      } else {
        assert start == mid == remaining;
      }
    }
  }

  lemma NothingPicked(vs: set<Node>, out: Weighted)
    requires vs <= out.Keys
    ensures AllGreedy(vs, out, map[])
  {
  }

  lemma OneMoreGreedy(vs: set<Node>, out: Weighted, picks: Picks, p: Node, r: set<Node>)
    requires vs <= out.Keys && AllGreedy(vs, out, picks) && p in r && GreedyChoice(vs, out, p, r)
    ensures AllGreedy(vs, out, picks[p := r - {p}])
  {
    hide GreedyChoice;
    assert r - {p} + {p} == r;
  }

  lemma OneMorePicked(es: set<Edge>, picks: Picks, p: Node, r: set<Node>)
    requires p !in picks
    ensures forall e :: Picked(picks, e) || e in Into(es, p, r) ==> Picked(picks[p := r], e)
  {
  }

  /** The greedy step: the best pick goes to the end of `left`, remembered with what was still unplaced. */
  method TakePick(
      vs: set<Node>, out: Weighted, left: seq<Node>, r: set<Node>, ghost right: seq<Node>, ghost picks: Picks)
      returns (pick: Node, ghost picks': Picks)
    requires Closes(vs, out) && r <= vs && r != {} && Placed(vs, out, left, r, right, picks)
    requires picks.Keys !! r && NoSinks(vs, out, r) && NoSources(vs, out, r) && AllGreedy(vs, out, picks)
    ensures AllGreedy(vs, out, picks')
    ensures pick in r && picks' == picks[pick := r - {pick}]
    ensures Placed(vs, out, left + [pick], r - {pick}, right, picks')
  {
    hide Placed, NoSinks, NoSources, Score, Total, Picked, AllGreedy, Into, OutOf, Edges;
    pick := BestPick(vs, out, r);
    BestScoreNotNegative(out, Edges(vs, out), r, pick);
    picks' := picks[pick := r - {pick}];
    OneMoreGreedy(vs, out, picks, pick, r);
    OneMorePicked(Edges(vs, out), picks, pick, r - {pick});
    PlaceLeft(vs, out, left, r, right, picks, picks', pick);
  }

  /** The greedy order: at most half the weight points back, all of it into greedy picks, and a DAG needs no pick. */
  method EadesOrder(nodes: seq<Node>, out: Weighted) returns (order: seq<Node>, ghost picks: Picks)
    requires Closes(Elements(nodes), out)
    ensures Enumerates(order, Elements(nodes))
    ensures 2 * Total(out, Back(Edges(Elements(nodes), out), order)) <= Total(out, Edges(Elements(nodes), out))
    ensures Acyclic(Unweighted(Elements(nodes), out)) ==> Back(Edges(Elements(nodes), out), order) == {}
    ensures forall e :: e in Back(Edges(Elements(nodes), out), order) ==> Picked(picks, e)
    ensures AllGreedy(Elements(nodes), out, picks)
    ensures Acyclic(Unweighted(Elements(nodes), out)) ==> picks == map[]
  {
    hide Placed, Acyclic, Total, Back, GreedyChoice, AllGreedy, Enumerates, NoSinks, NoSources, Edges;
    var vs := Elements(nodes);
    NothingPicked(vs, out);
    var remaining := vs;
    var left, right := [], [];
    picks := map[];
    NothingPlaced(vs, out);
    while remaining != {}
      invariant remaining <= vs && Placed(vs, out, left, remaining, right, picks)
      invariant picks.Keys !! remaining && AllGreedy(vs, out, picks)
      invariant Acyclic(Unweighted(vs, out)) ==> picks == map[]
      decreases |remaining|
    {
      ghost var before := remaining;
      left, remaining, right := PeelEnds(vs, out, left, remaining, right, picks);
      if remaining == {} {
        break;
      }
      if Acyclic(Unweighted(vs, out)) {
        AcyclicHasASink(vs, out, remaining);
        assert false;
      }
      var pick;
      pick, picks := TakePick(vs, out, left, remaining, right, picks);
      left := left + [pick];
      remaining := remaining - {pick};
      SmallerSet(remaining, before);
    }
    EverythingPlaced(vs, out, left, right, picks);
    order := left + right;
  }

  // ---------- the reported feedback arc set ----------

  /** The graph once the edges `back` are taken out, those in `inverted` turned round and the others cut. */
  function ForwardGraph(vs: set<Node>, out: Weighted, back: set<Edge>, inverted: set<Edge>): Graph
    requires vs <= out.Keys
  {
    map u | u in vs ::
      (set v | v in out[u] && (u, v) !in back) + (set v | v in vs && u in out[v] && (v, u) in inverted)
  }

  lemma {:induction false} ForwardPathClimbs(
      vs: set<Node>, out: Weighted, order: seq<Node>, inverted: set<Edge>,
      x: Node, p: seq<Node>, y: Node, i: nat, j: nat)
    requires Closes(vs, out) && Enumerates(order, vs) && inverted <= Back(Edges(vs, out), order)
    requires i < |order| && j < |order| && order[i] == x && order[j] == y
    requires IsPath(ForwardGraph(vs, out, Back(Edges(vs, out), order), inverted), x, p, y)
    ensures i <= j
    decreases p
  {
    if p != [] {
      assert p[0] in vs;
      var k :| 0 <= k < |order| && order[k] == p[0];
      ForwardEdgeClimbs(vs, out, order, inverted, i, k);
      ForwardPathClimbs(vs, out, order, inverted, p[0], p[1..], y, k, j);
    }
  }

  lemma ForwardEdgeClimbs(vs: set<Node>, out: Weighted, order: seq<Node>, inverted: set<Edge>, i: nat, k: nat)
    requires Closes(vs, out) && Enumerates(order, vs) && inverted <= Back(Edges(vs, out), order)
    requires i < |order| && k < |order|
    requires order[k] in Succ(ForwardGraph(vs, out, Back(Edges(vs, out), order), inverted), order[i])
    ensures i <= k
  {
    if (order[k], order[i]) in inverted {
      assert Precedes(order, order[i], order[k]);
    } else if k < i {
      assert (order[i], order[k]) in Edges(vs, out);
      assert Precedes(order, order[k], order[i]);
      assert false;
    }
  }

  /**
   * Cutting the backward edges of any order, or inverting any of them instead, leaves a DAG exactly when the graph has
   * no self-loop.
   */
  lemma ForwardGraphAcyclic(vs: set<Node>, out: Weighted, order: seq<Node>, inverted: set<Edge>)
    requires Closes(vs, out) && Enumerates(order, vs) && inverted <= Back(Edges(vs, out), order)
    ensures Acyclic(ForwardGraph(vs, out, Back(Edges(vs, out), order), inverted))
            <==> forall u :: u in vs ==> u !in out[u]
  {
    hide Back, Edges, IsPath;
    var g := ForwardGraph(vs, out, Back(Edges(vs, out), order), inverted);
    if forall u :: u in vs ==> u !in out[u] {
      forall x, y | y in Succ(g, x)
        ensures !Reach(g, y, x)
      {
        assert x in vs && y in vs && x != y;
        var i :| 0 <= i < |order| && order[i] == x;
        var k :| 0 <= k < |order| && order[k] == y;
        ForwardEdgeClimbs(vs, out, order, inverted, i, k);
        if Reach(g, y, x) {
          var p :| IsPath(g, y, p, x);
          ForwardPathClimbs(vs, out, order, inverted, y, p, x, k, i);
        }
      }
    } else {
      var u :| u in vs && u in out[u];
      SelfLoopNotBack(vs, out, order, u);
      assert u in Succ(g, u);
      ReachRefl(g, u);
    }
  }

  lemma SelfLoopNotBack(vs: set<Node>, out: Weighted, order: seq<Node>, u: Node)
    requires Closes(vs, out) && NoDuplicates(order)
    ensures (u, u) !in Back(Edges(vs, out), order)
  {
  }

  /** A reported line: references, from, to. */
  type Line = (nat, Node, Node)

  function EdgeSet(lines: seq<Line>): set<Edge> {
    set l | l in lines :: (l.1, l.2)
  }

  /** `lines` lists each edge of `es` once, with its weight. */
  ghost predicate Lists(out: Weighted, lines: seq<Line>, es: set<Edge>) {
    && EdgeSet(lines) == es
    && (forall i :: 0 <= i < |lines| ==> lines[i].0 == Weight(out, (lines[i].1, lines[i].2)))
    && (forall i, j :: 0 <= i < j < |lines| ==> (lines[i].1, lines[i].2) != (lines[j].1, lines[j].2))
  }

  lemma ListsSnoc(out: Weighted, lines: seq<Line>, es: set<Edge>, e: Edge)
    requires Lists(out, lines, es) && e !in es
    ensures Lists(out, lines + [(Weight(out, e), e.0, e.1)], es + {e})
  {
    var lines' := lines + [(Weight(out, e), e.0, e.1)];
    forall i | 0 <= i < |lines|
      ensures (lines[i].1, lines[i].2) in es
    {
      assert lines[i] in lines;
    }
    assert lines'[|lines|] in lines';
    forall f | f in es + {e}
      ensures f in EdgeSet(lines')
    {
      if f in es {
        var l :| l in lines && (l.1, l.2) == f;
        assert l in lines';
      }
    }
  }

  lemma BackByPosition(es: set<Edge>, order: seq<Node>, pos: map<Node, nat>, e: Edge)
    requires NoDuplicates(order) && e in es && e.0 in order && e.1 in order
    requires forall i :: 0 <= i < |order| ==> order[i] in pos && pos[order[i]] == i
    ensures e in Back(es, order) <==> pos[e.1] < pos[e.0]
  {
    var i :| 0 <= i < |order| && order[i] == e.1;
    var j :| 0 <= j < |order| && order[j] == e.0;
    if i < j {
      assert Precedes(order, e.1, e.0);
    }
  }

  ghost function BackFrom(es: set<Edge>, order: seq<Node>, us: set<Node>, u: Node, vs: set<Node>): set<Edge> {
    set e | e in Back(es, order) && (e.0 in us || (e.0 == u && e.1 in vs))
  }

  lemma BackFromSteps(es: set<Edge>, order: seq<Node>, us: set<Node>, u: Node, vs: set<Node>, v: Node)
    requires u !in us && v !in vs && (u, v) in es
    ensures (u, v) !in BackFrom(es, order, us, u, vs)
    ensures BackFrom(es, order, us, u, vs + {v}) ==
            BackFrom(es, order, us, u, vs) + if (u, v) in Back(es, order) then {(u, v)} else {}
  {
  }

  lemma BackFromNext(vs: set<Node>, out: Weighted, order: seq<Node>, us: set<Node>, u: Node, next: Node)
    requires Closes(vs, out) && u in vs
    ensures BackFrom(Edges(vs, out), order, us, u, out[u].Keys) == BackFrom(Edges(vs, out), order, us + {u}, next, {})
  {
  }

  /** The inner loop: the backward edges out of `u`. */
  method CollectFrom(
      vs: set<Node>, out: Weighted, order: seq<Node>, pos: map<Node, nat>, u: Node, ghost us: set<Node>,
      lines: seq<Line>)
      returns (lines': seq<Line>)
    requires Closes(vs, out) && Enumerates(order, vs) && u in vs && u !in us
    requires forall i :: 0 <= i < |order| ==> order[i] in pos && pos[order[i]] == i
    requires Lists(out, lines, BackFrom(Edges(vs, out), order, us, u, {}))
    ensures Lists(out, lines', BackFrom(Edges(vs, out), order, us, u, out[u].Keys))
  {
    hide Lists, Back, BackFrom, Precedes;
    ghost var es := Edges(vs, out);
    lines' := lines;
    var todo := out[u].Keys;
    assert out[u].Keys - todo == {};
    while todo != {}
      invariant todo <= out[u].Keys
      invariant Lists(out, lines', BackFrom(es, order, us, u, out[u].Keys - todo))
      decreases |todo|
    {
      var v :| v in todo;
      BackFromSteps(es, order, us, u, out[u].Keys - todo, v);
      BackByPosition(es, order, pos, (u, v));
      if pos[v] < pos[u] {
        ListsSnoc(out, lines', BackFrom(es, order, us, u, out[u].Keys - todo), (u, v));
        lines' := lines' + [(out[u][v], u, v)];
      }
      assert out[u].Keys - (todo - {v}) == out[u].Keys - todo + {v};
      todo := todo - {v};
    }
    assert out[u].Keys - todo == out[u].Keys;
  }

  /** The nested loops that collect the backward edges. */
  method CollectBackEdges(nodes: seq<Node>, out: Weighted, order: seq<Node>) returns (lines: seq<Line>)
    requires Closes(Elements(nodes), out) && NoDuplicates(nodes) && Enumerates(order, Elements(nodes))
    ensures Lists(out, lines, Back(Edges(Elements(nodes), out), order))
  {
    hide Lists, Back, BackFrom, Edges;
    ghost var es := Edges(Elements(nodes), out);
    var pos := map i | 0 <= i < |order| :: order[i] := i;
    lines := [];
    NoLines(out, es, order);
    ghost var us: set<Node> := {};
    for k := 0 to |nodes|
      invariant us == Elements(nodes[..k])
      invariant Lists(out, lines, BackFrom(es, order, us, Node(""), {}))
    {
      var u := nodes[k];
      BackFromRename(es, order, us, Node(""), u);
      lines := CollectFrom(Elements(nodes), out, order, pos, u, us, lines);
      BackFromNext(Elements(nodes), out, order, us, u, Node(""));
      us := us + {u};
      assert nodes[..k + 1] == nodes[..k] + [u];
    }
    assert nodes[..|nodes|] == nodes;
    BackFromAll(Elements(nodes), out, order);
  }

  lemma NoLines(out: Weighted, es: set<Edge>, order: seq<Node>)
    ensures Lists(out, [], BackFrom(es, order, {}, Node(""), {}))
  {
  }

  lemma BackFromRename(es: set<Edge>, order: seq<Node>, us: set<Node>, u: Node, v: Node)
    ensures BackFrom(es, order, us, u, {}) == BackFrom(es, order, us, v, {})
  {
  }

  lemma BackFromAll(vs: set<Node>, out: Weighted, order: seq<Node>)
    requires Closes(vs, out)
    ensures BackFrom(Edges(vs, out), order, vs, Node(""), {}) == Back(Edges(vs, out), order)
  {
  }

  lemma ListsDrop(out: Weighted, lines: seq<Line>, es: set<Edge>)
    requires Lists(out, lines, es) && lines != []
    ensures var l := lines[|lines| - 1];
      (l.1, l.2) in es && l.0 == Weight(out, (l.1, l.2)) && Lists(out, lines[..|lines| - 1], es - {(l.1, l.2)})
  {
    var n := |lines| - 1;
    var l := lines[n];
    var rest := lines[..n];
    assert l in lines;
    forall f | f in es - {(l.1, l.2)}
      ensures f in EdgeSet(rest)
    {
      var i :| 0 <= i < |lines| && (lines[i].1, lines[i].2) == f;
      assert lines[i] == rest[i];
    }
    forall f | f in EdgeSet(rest)
      ensures f in es - {(l.1, l.2)}
    {
      var i :| 0 <= i < |rest| && (rest[i].1, rest[i].2) == f;
      assert lines[i] in lines;
    }
  }

  ghost function SumLines(lines: seq<Line>): nat {
    if lines == [] then 0 else SumLines(lines[..|lines| - 1]) + lines[|lines| - 1].0
  }

  lemma {:induction false} SumIsTotal(out: Weighted, lines: seq<Line>, es: set<Edge>)
    requires Lists(out, lines, es)
    ensures SumLines(lines) == Total(out, es)
  {
    if lines == [] {
      assert es == {};
    } else {
      ListsDrop(out, lines, es);
      var l := lines[|lines| - 1];
      TotalRemove(out, es, (l.1, l.2));
      SumIsTotal(out, lines[..|lines| - 1], es - {(l.1, l.2)});
    }
  }

  method SumReferences(lines: seq<Line>) returns (t: nat)
    ensures t == SumLines(lines)
  {
    t := 0;
    for k := 0 to |lines|
      invariant t == SumLines(lines[..k])
    {
      assert lines[..k + 1][..k] == lines[..k];
      t := t + lines[k].0;
    }
    assert lines[..|lines|] == lines;
  }

  lemma ListsItself(out: Weighted, lines: seq<Line>, es: set<Edge>)
    requires Lists(out, lines, es)
    ensures es == EdgeSet(lines) && (es == {} ==> lines == [])
  {
    if lines != [] {
      assert lines[0] in lines;
      assert (lines[0].1, lines[0].2) in EdgeSet(lines);
    }
  }

  lemma BackWithinEdges(es: set<Edge>, order: seq<Node>)
    ensures Back(es, order) <= es
  {
  }

  /** The report on one cycle: edges to cut or invert, at most half of all by weight, so that a DAG is left. */
  method FeedbackReport(nodes: seq<Node>, out: Weighted) returns (lines: seq<Line>, totalBack: nat)
    requires Closes(Elements(nodes), out) && NoDuplicates(nodes)
    ensures EdgeSet(lines) <= Edges(Elements(nodes), out) && Lists(out, lines, EdgeSet(lines))
    ensures totalBack == SumLines(lines) == Total(out, EdgeSet(lines))
    ensures 2 * totalBack <= Total(out, Edges(Elements(nodes), out))
    ensures forall inverted :: inverted <= EdgeSet(lines) ==>
              (Acyclic(ForwardGraph(Elements(nodes), out, EdgeSet(lines), inverted))
               <==> forall u :: u in nodes ==> u !in out[u])
    ensures Acyclic(Unweighted(Elements(nodes), out)) ==> lines == []
  {
    hide Acyclic, Lists, Back, Total, ForwardGraph, AllGreedy;
    var order, picks := EadesOrder(nodes, out);
    lines := CollectBackEdges(nodes, out, order);
    ListsItself(out, lines, Back(Edges(Elements(nodes), out), order));
    BackWithinEdges(Edges(Elements(nodes), out), order);
    forall inverted | inverted <= EdgeSet(lines)
      ensures Acyclic(ForwardGraph(Elements(nodes), out, EdgeSet(lines), inverted))
              <==> forall u :: u in nodes ==> u !in out[u]
    {
      ForwardGraphAcyclic(Elements(nodes), out, order, inverted);
    }
    totalBack := SumReferences(lines);
    SumIsTotal(out, lines, EdgeSet(lines));
  }
}
