/** The production-line scanner and the ratchet of scripts/check_panic_budget.py. */
module PanicBudget {

  /** A source line with what the script's pattern tests and brace count say about it. */
  datatype Line = Line(
    text: string, item: bool, cfgTest: bool, blank: bool, attribute: bool, use: bool, delta: int)

  // ---------- the scanner ----------

  /** How deep the scan is inside a skipped item, and whether a `#[cfg(test)]` is waiting for its item. */
  datatype State = State(depth: nat, pending: bool)

  const NEUTRAL: State := State(0, false)

  function Next(s: State, l: Line): State {
    if s.depth > 0 then State(if s.depth + l.delta > 0 then s.depth + l.delta else 0, s.pending)
    else if s.pending && l.item then State(if l.delta > 0 then l.delta else 0, false)
    else if l.cfgTest then State(0, true)
    else State(0, s.pending && (l.blank || l.attribute))
  }

  predicate Keeps(s: State, l: Line) {
    s.depth == 0 && !(s.pending && l.item) && !l.cfgTest
  }

  function Scan(lines: seq<Line>, s: State): seq<Line> {
    if lines == [] then [] else (if Keeps(s, lines[0]) then [lines[0]] else []) + Scan(lines[1..], Next(s, lines[0]))
  }

  function End(lines: seq<Line>, s: State): State {
    if lines == [] then s else End(lines[1..], Next(s, lines[0]))
  }

  function SumStack(stack: seq<int>): int {
    if stack == [] then 0 else stack[0] + SumStack(stack[1..])
  }

  function ScanFrom(lines: seq<Line>, k: nat, s: State): seq<Line>
    requires k <= |lines|
  {
    Scan(lines[k..], s)
  }

  lemma ScanStep(lines: seq<Line>, k: nat, s: State)
    requires k < |lines|
    ensures ScanFrom(lines, k, s)
            == (if Keeps(s, lines[k]) then [lines[k]] else []) + ScanFrom(lines, k + 1, Next(s, lines[k]))
  {
    assert lines[k..][1..] == lines[k + 1..];
  }

  lemma ScanBounds(lines: seq<Line>, s: State)
    ensures ScanFrom(lines, 0, s) == Scan(lines, s) && ScanFrom(lines, |lines|, s) == []
  {
    assert lines[0..] == lines;
  }

  lemma CounterSum(stack: seq<int>, depth: nat)
    requires stack == if depth == 0 then [] else [depth]
    ensures SumStack(stack) == depth
  {
    assert stack != [] ==> stack[1..] == [];
  }

  /** The skip stack never holds more than one entry, a positive one: it is a counter. */
  method ProductionLines(lines: seq<Line>) returns (output: seq<Line>)
    ensures output == Scan(lines, NEUTRAL)
  {
    hide Scan, ScanFrom, SumStack;
    output := [];
    var skipStack: seq<int> := [];
    var pending := false;
    ghost var s := NEUTRAL;
    ScanBounds(lines, NEUTRAL);
    for k := 0 to |lines|
      invariant skipStack == if s.depth == 0 then [] else [s.depth]
      invariant pending == s.pending
      invariant output + ScanFrom(lines, k, s) == Scan(lines, NEUTRAL)
    {
      var line := lines[k];
      ScanStep(lines, k, s);
      CounterSum(skipStack, s.depth);
      var currentDepth := SumStack(skipStack);
      s := Next(s, line);
      if currentDepth == 0 {
        if pending && line.item {
          if line.delta > 0 {
            skipStack := skipStack + [line.delta];
          }
          pending := false;
          continue;
        }
        if pending && !line.blank && !line.attribute {
          pending := false;
        }
        if line.cfgTest {
          pending := true;
          continue;
        }
        output := output + [line];
      } else {
        skipStack := skipStack[|skipStack| - 1 := skipStack[|skipStack| - 1] + line.delta];
        if skipStack[|skipStack| - 1] <= 0 {
          skipStack := skipStack[..|skipStack| - 1];
        }
      }
    }
    ScanBounds(lines, s);
  }

  lemma {:induction false} ScanConcat(a: seq<Line>, b: seq<Line>, s: State)
    ensures Scan(a + b, s) == Scan(a, s) + Scan(b, End(a, s)) && End(a + b, s) == End(b, End(a, s))
    decreases |a|
  {
    hide Next, Keeps;
    if a == [] {
      assert a + b == b;
    } else {
      ScanConcat(a[1..], b, Next(s, a[0]));
      assert (a + b)[1..] == a[1..] + b;
    }
  }

  /** A file without test attributes is production code from its first line to its last. */
  lemma {:induction false} AllKept(lines: seq<Line>)
    requires NoCfgTest(lines)
    ensures Scan(lines, NEUTRAL) == lines && End(lines, NEUTRAL) == NEUTRAL
  {
    if lines != [] {
      AllKept(lines[1..]);
    }
  }

  // ---------- cutting a test block ----------

  function SumDelta(lines: seq<Line>): int {
    if lines == [] then 0 else lines[0].delta + SumDelta(lines[1..])
  }

  /** From depth `d` the lines never close the item they are in. */
  ghost predicate StaysNested(d: nat, lines: seq<Line>)
    decreases |lines|
  {
    d > 0 && (lines == [] || (d + lines[0].delta > 0 && StaysNested(d + lines[0].delta, lines[1..])))
  }

  lemma {:induction false} NestedLinesSkipped(d: nat, lines: seq<Line>)
    requires StaysNested(d, lines)
    ensures d + SumDelta(lines) > 0
    ensures Scan(lines, State(d, false)) == [] && End(lines, State(d, false)) == State(d + SumDelta(lines), false)
    decreases |lines|
  {
    if lines != [] {
      NestedLinesSkipped(d + lines[0].delta, lines[1..]);
    }
  }

  /** Lines that may stand between the attribute and its item: blank ones and further attributes. */
  ghost predicate IsGap(lines: seq<Line>) {
    forall i :: 0 <= i < |lines| ==> (lines[i].blank || lines[i].attribute) && !lines[i].item && !lines[i].cfgTest
  }

  lemma {:induction false} GapKept(gap: seq<Line>, pending: bool)
    requires IsGap(gap)
    ensures Scan(gap, State(0, pending)) == gap && End(gap, State(0, pending)) == State(0, pending)
  {
    if gap != [] {
      GapKept(gap[1..], pending);
    }
  }

  /** A `#[cfg(test)]` item with braces: what follows its opening line up to the closing one vanishes. */
  ghost predicate IsTestBlock(attr: Line, open: Line, body: seq<Line>, close: Line) {
    && attr.cfgTest && open.item && open.delta > 0
    && StaysNested(open.delta, body)
    && open.delta + SumDelta(body) + close.delta <= 0
  }

  lemma OneLine(l: Line, s: State)
    ensures Scan([l], s) == (if Keeps(s, l) then [l] else []) && End([l], s) == Next(s, l)
  {
    hide Keeps, Next;
    assert [l][1..] == [];
  }

  /** From the attribute up to its item's first line. */
  lemma AttributeToItem(attr: Line, gap: seq<Line>, open: Line)
    requires attr.cfgTest && IsGap(gap)
    ensures Scan([attr] + gap + [open], NEUTRAL) == gap + if Keeps(State(0, true), open) then [open] else []
    ensures End([attr] + gap + [open], NEUTRAL) == Next(State(0, true), open)
  {
    hide Scan, End, IsGap;
    OneLine(attr, NEUTRAL);
    ScanConcat([attr], gap, NEUTRAL);
    GapKept(gap, true);
    ScanConcat([attr] + gap, [open], NEUTRAL);
    OneLine(open, State(0, true));
  }

  lemma BlockVanishes(attr: Line, gap: seq<Line>, open: Line, body: seq<Line>, close: Line)
    requires IsTestBlock(attr, open, body, close) && IsGap(gap)
    ensures var block := [attr] + gap + [open] + body + [close];
      Scan(block, NEUTRAL) == gap && End(block, NEUTRAL) == NEUTRAL
  {
    hide Scan, End, IsGap, StaysNested, SumDelta;
    var front := [attr] + gap + [open];
    AttributeToItem(attr, gap, open);
    ScanConcat(front, body, NEUTRAL);
    NestedLinesSkipped(open.delta, body);
    ScanConcat(front + body, [close], NEUTRAL);
    OneLine(close, State(open.delta + SumDelta(body), false));
  }

  /** Cutting a test block out of a file leaves the scanned lines as they were, and they split at the cut. */
  lemma CuttingCommutes(
      pre: seq<Line>, attr: Line, gap: seq<Line>, open: Line, body: seq<Line>, close: Line, post: seq<Line>)
    requires End(pre, NEUTRAL) == NEUTRAL && IsTestBlock(attr, open, body, close) && IsGap(gap)
    ensures Scan(pre + ([attr] + gap + [open] + body + [close]) + post, NEUTRAL) == Scan(pre + gap + post, NEUTRAL)
    ensures Scan(pre + gap + post, NEUTRAL) == Scan(pre, NEUTRAL) + gap + Scan(post, NEUTRAL)
  {
    hide Scan, End, IsTestBlock, IsGap;
    var block := [attr] + gap + [open] + body + [close];
    BlockVanishes(attr, gap, open, body, close);
    GapKept(gap, false);
    ScanConcat(pre, block, NEUTRAL);
    ScanConcat(pre + block, post, NEUTRAL);
    ScanConcat(pre, gap, NEUTRAL);
    ScanConcat(pre + gap, post, NEUTRAL);
  }

  /** What the patterns guarantee: an attribute line starts with `#`, an item line with `pub`, `mod` or `fn`. */
  predicate Consistent(l: Line) {
    (l.cfgTest ==> l.attribute) && !(l.item && l.attribute) && !(l.blank && (l.item || l.attribute))
  }

  ghost predicate NoCfgTest(lines: seq<Line>) {
    forall i :: 0 <= i < |lines| ==> !lines[i].cfgTest
  }

  lemma {:induction false} FirstLineShows(lines: seq<Line>)
    requires lines != [] && NoCfgTest(lines)
    ensures Scan(lines, NEUTRAL) != []
  {
    assert Keeps(NEUTRAL, lines[0]);
  }

  /** Any braced lines after a `#[cfg(test)]`, whatever the patterns make of the first of them. */
  ghost predicate IsBracedBlock(attr: Line, open: Line, body: seq<Line>, close: Line) {
    && attr.cfgTest && Consistent(open) && !open.blank && !open.attribute
    && NoCfgTest(body + [close])
    && (open.delta > 0 ==> StaysNested(open.delta, body) && open.delta + SumDelta(body) + close.delta <= 0)
  }

  /**
   * The block after a `#[cfg(test)]` disappears from the scan exactly when its first line matches the item pattern
   * and leaves a brace open. An `impl` or `async fn` does not match, a multi-line signature opens no brace.
   */
  lemma BlockVanishesIff(attr: Line, gap: seq<Line>, open: Line, body: seq<Line>, close: Line)
    requires IsBracedBlock(attr, open, body, close) && IsGap(gap)
    ensures var block := [attr] + gap + [open] + body + [close];
      Scan(block, NEUTRAL) == gap && End(block, NEUTRAL) == NEUTRAL <==> open.item && open.delta > 0
  {
    hide Scan, End, StaysNested, SumDelta, Next, Keeps, IsGap;
    if open.item && open.delta > 0 {
      BlockVanishes(attr, gap, open, body, close);
    } else {
      BlockShows(attr, gap, open, body, close);
    }
  }

  lemma BlockShows(attr: Line, gap: seq<Line>, open: Line, body: seq<Line>, close: Line)
    requires attr.cfgTest && IsGap(gap) && Consistent(open) && !open.blank && !open.attribute
    requires NoCfgTest(body + [close]) && !(open.item && open.delta > 0)
    ensures Scan([attr] + gap + [open] + body + [close], NEUTRAL) != gap
  {
    hide Scan, End, Next, Keeps, IsGap;
    var front, rest := [attr] + gap + [open], body + [close];
    assert [attr] + gap + [open] + body + [close] == front + rest;
    ScanConcat(front, rest, NEUTRAL);
    UntilOpen(attr, gap, open);
    FirstLineShows(rest);
  }

  /** After the first line the scan is neutral again, and that line shows unless it matches the item pattern. */
  lemma UntilOpen(attr: Line, gap: seq<Line>, open: Line)
    requires attr.cfgTest && IsGap(gap) && Consistent(open) && !open.blank && !open.attribute
    requires !(open.item && open.delta > 0)
    ensures Scan([attr] + gap + [open], NEUTRAL) == gap + if open.item then [] else [open]
    ensures End([attr] + gap + [open], NEUTRAL) == NEUTRAL
  {
    hide Scan, End, IsGap;
    AttributeToItem(attr, gap, open);
  }

  /** Otherwise everything after the first line is scanned as production code. */
  lemma OpenLineLeaks(attr: Line, gap: seq<Line>, open: Line, rest: seq<Line>)
    requires attr.cfgTest && IsGap(gap) && Consistent(open) && !open.blank && !open.attribute
    requires !(open.item && open.delta > 0)
    ensures Scan([attr] + gap + [open] + rest, NEUTRAL)
            == gap + (if open.item then [] else [open]) + Scan(rest, NEUTRAL)
  {
    hide Scan, End, Next, Keeps, IsGap;
    UntilOpen(attr, gap, open);
    ScanConcat([attr] + gap + [open], rest, NEUTRAL);
  }

  // ---------- the counts ----------

  type Counts = map<string, nat>

  /** How many lines contain a panic-prone use. */
  function Uses(lines: seq<Line>): nat {
    if lines == [] then 0 else (if lines[0].use then 1 else 0) + Uses(lines[1..])
  }

  function FileCount(lines: seq<Line>): nat {
    Uses(Scan(lines, NEUTRAL))
  }

  /** The files with at least one use in their production lines. */
  function CountsOf(files: map<string, seq<Line>>): Counts {
    map p | p in files && FileCount(files[p]) > 0 :: FileCount(files[p])
  }

  /** `current_counts` lists only files with at least one use. */
  ghost predicate Positive(m: Counts) {
    forall p :: p in m ==> m[p] > 0
  }

  lemma {:induction false} UsesConcat(a: seq<Line>, b: seq<Line>)
    ensures Uses(a + b) == Uses(a) + Uses(b)
    decreases |a|
  {
    if a == [] {
      assert a + b == b;
    } else {
      UsesConcat(a[1..], b);
      assert (a + b)[1..] == a[1..] + b;
    }
  }

  function UseLines(lines: seq<Line>): set<nat> {
    set i: nat | i < |lines| && lines[i].use
  }

  lemma NoUses()
    ensures UseLines([]) == {} && Uses([]) == 0
  {
  }

  lemma OneUse(l: Line)
    ensures Uses([l]) == if l.use then 1 else 0
  {
    assert [l][1..] == [];
  }

  lemma UseLinesNext(front: seq<Line>, last: Line)
    ensures |UseLines(front + [last])| == |UseLines(front)| + if last.use then 1 else 0
  {
    var all := UseLines(front + [last]);
    if last.use {
      assert all == UseLines(front) + {|front|};
    } else {
      assert all == UseLines(front);
    }
  }

  /** It is the number of such lines. */
  lemma {:induction false} UsesIsNumber(lines: seq<Line>)
    ensures Uses(lines) == |UseLines(lines)|
  {
    hide UseLines, Uses;
    if lines == [] {
      NoUses();
    } else {
      var front, last := lines[..|lines| - 1], lines[|lines| - 1];
      UsesIsNumber(front);
      UsesConcat(front, [last]);
      OneUse(last);
      assert lines == front + [last];
      UseLinesNext(front, last);
    }
  }

  method CountUses(lines: seq<Line>) returns (count: nat)
    ensures count == Uses(lines)
  {
    count := 0;
    for k := 0 to |lines|
      invariant count + Uses(lines[k..]) == Uses(lines)
    {
      assert lines[k..][1..] == lines[k + 1..];
      if lines[k].use {
        count := count + 1;
      }
    }
  }

  method CurrentCounts(files: map<string, seq<Line>>) returns (counts: Counts)
    ensures counts == CountsOf(files) && Positive(counts)
  {
    hide FileCount;
    counts := map[];
    var todo := files.Keys;
    while todo != {}
      invariant todo <= files.Keys
      invariant forall p :: p in counts <==> p in files && p !in todo && FileCount(files[p]) > 0
      invariant forall p :: p in counts ==> counts[p] == FileCount(files[p])
      decreases |todo|
    {
      var path :| path in todo;
      todo := todo - {path};
      var count := CountFile(files[path]);
      if count != 0 {
        counts := counts[path := count];
      }
    }
  }

  method CountFile(lines: seq<Line>) returns (count: nat)
    ensures count == FileCount(lines)
  {
    var production := ProductionLines(lines);
    count := CountUses(production);
  }

  /** A test block adds to a file's count exactly the uses on the lines between its attribute and its item. */
  lemma BlockAddsGap(
      pre: seq<Line>, attr: Line, gap: seq<Line>, open: Line, body: seq<Line>, close: Line, post: seq<Line>)
    requires End(pre, NEUTRAL) == NEUTRAL && IsTestBlock(attr, open, body, close) && IsGap(gap)
    ensures FileCount(pre + ([attr] + gap + [open] + body + [close]) + post) == FileCount(pre + post) + Uses(gap)
  {
    hide Scan, End, IsTestBlock, IsGap, Uses;
    CuttingCommutes(pre, attr, gap, open, body, close, post);
    ScanConcat(pre, post, NEUTRAL);
    UsesConcat(Scan(pre, NEUTRAL) + gap, Scan(post, NEUTRAL));
    UsesConcat(Scan(pre, NEUTRAL), gap);
    UsesConcat(Scan(pre, NEUTRAL), Scan(post, NEUTRAL));
  }

  /**
   * Adding a test block to a file, or removing it, leaves the counts of all files as they were exactly when no line
   * between its attribute and its item holds a use; every check then has the same outcome.
   */
  lemma TestBlockCountsNothingIff(
      files: map<string, seq<Line>>, p: string,
      pre: seq<Line>, attr: Line, gap: seq<Line>, open: Line, body: seq<Line>, close: Line, post: seq<Line>)
    requires End(pre, NEUTRAL) == NEUTRAL && IsTestBlock(attr, open, body, close) && IsGap(gap)
    ensures CountsOf(files[p := pre + ([attr] + gap + [open] + body + [close]) + post])
            == CountsOf(files[p := pre + post])
            <==> Uses(gap) == 0
  {
    hide FileCount, Uses, IsTestBlock, IsGap, End;
    BlockAddsGap(pre, attr, gap, open, body, close, post);
    var more, less := files[p := pre + ([attr] + gap + [open] + body + [close]) + post], files[p := pre + post];
    assert more[p] == pre + ([attr] + gap + [open] + body + [close]) + post && less[p] == pre + post;
    if FileCount(more[p]) == FileCount(less[p]) {
      forall q
        ensures q in CountsOf(more) <==> q in CountsOf(less)
        ensures q in CountsOf(more) ==> CountsOf(more)[q] == CountsOf(less)[q]
      {
        assert q != p && q in files ==> more[q] == less[q];
      }
    } else {
      assert p in CountsOf(more) && CountsOf(more)[p] == FileCount(more[p]);
      assert p in CountsOf(less) ==> CountsOf(less)[p] == FileCount(less[p]);
    }
  }

  // ---------- the ratchet ----------

  datatype Baseline = Baseline(total: nat, tracked: Counts)

  ghost function Total(m: Counts): nat {
    if m == map[] then 0 else var p :| p in m; m[p] + Total(m - {p})
  }

  lemma {:induction false} TotalRemove(m: Counts, p: string)
    requires p in m
    ensures Total(m) == m[p] + Total(m - {p})
    decreases |m|
  {
    var q :| q in m && Total(m) == m[q] + Total(m - {q});
    if q != p {
      TotalRemove(m - {q}, p);
      TotalRemove(m - {p}, q);
      assert m - {q} - {p} == m - {p} - {q};
    }
  }

  function CountOf(m: Counts, p: string): nat {
    if p in m then m[p] else 0
  }

  ghost predicate NoFileGrew(tracked: Counts, current: Counts) {
    forall p :: CountOf(current, p) <= CountOf(tracked, p)
  }

  lemma {:induction false} TotalMonotone(tracked: Counts, current: Counts)
    requires NoFileGrew(tracked, current)
    ensures Total(current) <= Total(tracked)
    decreases |current|
  {
    if current != map[] {
      var p :| p in current;
      TotalRemove(current, p);
      assert CountOf(current, p) <= CountOf(tracked, p);
      if p in tracked {
        TotalRemove(tracked, p);
        assert forall q :: q in current - {p} ==> CountOf(current, q) <= CountOf(tracked, q);
        assert NoFileGrew(tracked - {p}, current - {p});
        TotalMonotone(tracked - {p}, current - {p});
      } else {
        assert NoFileGrew(tracked, current - {p});
        TotalMonotone(tracked, current - {p});
      }
    }
  }

  method SumCounts(m: Counts) returns (t: nat)
    ensures t == Total(m)
  {
    t := 0;
    var todo := m;
    while todo != map[]
      invariant t + Total(todo) == Total(m)
      decreases |todo|
    {
      var p :| p in todo;
      TotalRemove(todo, p);
      t := t + todo[p];
      todo := todo - {p};
    }
  }

  datatype Finding =
    | TotalChanged | New(path: string) | Grew(path: string) | Shrank(path: string) | Removed(path: string)

  /** The verdict of one check. */
  ghost predicate Passes(b: Baseline, current: Counts) {
    Total(current) <= b.total && forall p :: p in current ==> p in b.tracked && current[p] <= b.tracked[p]
  }

  /** What the comparison of one tracked or new file yields. */
  function RegressionIn(b: Baseline, current: Counts, p: string): seq<Finding>
    requires p in current
  {
    if p !in b.tracked then [New(p)] else if current[p] > b.tracked[p] then [Grew(p)] else []
  }

  function ImprovementIn(b: Baseline, current: Counts, p: string): seq<Finding>
    requires p in current
  {
    if p in b.tracked && current[p] < b.tracked[p] then [Shrank(p)] else []
  }

  /** The regressions are those of the files in `done`, and the total's. */
  ghost predicate Regressions(b: Baseline, current: Counts, done: set<string>, found: seq<Finding>)
    requires done <= current.Keys
  {
    forall f :: f in found <==>
      (f == TotalChanged && Total(current) > b.total) || exists p :: p in done && f in RegressionIn(b, current, p)
  }

  ghost predicate Improvements(b: Baseline, current: Counts, done: set<string>, gone: set<string>, found: seq<Finding>)
    requires done <= current.Keys
  {
    forall f :: f in found <==>
      || (f == TotalChanged && Total(current) < b.total)
      || (exists p :: p in done && f in ImprovementIn(b, current, p))
      || (f.Removed? && f.path in gone)
  }

  lemma TotalFirst(b: Baseline, current: Counts, regressions: seq<Finding>, improvements: seq<Finding>)
    requires regressions == if Total(current) > b.total then [TotalChanged] else []
    requires improvements == if Total(current) < b.total then [TotalChanged] else []
    ensures Regressions(b, current, {}, regressions) && Improvements(b, current, {}, {}, improvements)
  {
    hide Total;
  }

  lemma NextFile(
      b: Baseline, current: Counts, done: set<string>, p: string, regressions: seq<Finding>, improvements: seq<Finding>)
    requires done + {p} <= current.Keys
    requires Regressions(b, current, done, regressions) && Improvements(b, current, done, {}, improvements)
    ensures Regressions(b, current, done + {p}, regressions + RegressionIn(b, current, p))
    ensures Improvements(b, current, done + {p}, {}, improvements + ImprovementIn(b, current, p))
  {
    hide Total, RegressionIn, ImprovementIn;
  }

  lemma NextRemoved(b: Baseline, current: Counts, gone: set<string>, p: string, improvements: seq<Finding>)
    requires Improvements(b, current, current.Keys, gone, improvements)
    ensures Improvements(b, current, current.Keys, gone + {p}, improvements + [Removed(p)])
  {
    hide Total, ImprovementIn;
  }

  lemma NoRegressionsIffPasses(b: Baseline, current: Counts, regressions: seq<Finding>)
    requires Regressions(b, current, current.Keys, regressions)
    ensures regressions == [] <==> Passes(b, current)
  {
    hide Total;
    if regressions == [] {
      assert TotalChanged !in regressions;
      forall p | p in current
        ensures p in b.tracked && current[p] <= b.tracked[p]
      {
        assert New(p) !in regressions && Grew(p) !in regressions;
        assert RegressionIn(b, current, p) == [];
      }
    } else {
      assert regressions[0] in regressions;
    }
  }

  /** Every file is reported under its own heading, and the exit code is 1 exactly if there is a regression. */
  method Check(b: Baseline, current: Counts) returns (code: int, regressions: seq<Finding>, improvements: seq<Finding>)
    ensures code == if Passes(b, current) then 0 else 1
    ensures regressions == [] <==> Passes(b, current)
    ensures Regressions(b, current, current.Keys, regressions)
    ensures Improvements(b, current, current.Keys, b.tracked.Keys - current.Keys, improvements)
    ensures (TotalChanged in regressions <==> Total(current) > b.total)
    ensures (TotalChanged in improvements <==> Total(current) < b.total)
    ensures forall p :: New(p) in regressions <==> p in current && p !in b.tracked
    ensures forall p :: Grew(p) in regressions <==> p in current && p in b.tracked && current[p] > b.tracked[p]
    ensures forall p :: Shrank(p) in improvements <==> p in current && p in b.tracked && current[p] < b.tracked[p]
    ensures forall p :: Removed(p) in improvements <==> p in b.tracked && p !in current
  {
    hide Total, Passes, Regressions, Improvements;
    regressions, improvements := [], [];
    var currentTotal := SumCounts(current);
    if currentTotal > b.total {
      regressions := [TotalChanged];
    } else if currentTotal < b.total {
      improvements := [TotalChanged];
    }
    TotalFirst(b, current, regressions, improvements);
    regressions, improvements := CompareFiles(b, current, regressions, improvements);
    improvements := CompareBaseline(b, current, improvements);
    NoRegressionsIffPasses(b, current, regressions);
    code := if regressions != [] then 1 else 0;
    Reported(b, current, regressions, improvements);
  }

  lemma FoundIn(b: Baseline, current: Counts, p: string, f: Finding)
    requires p in current
    ensures f in RegressionIn(b, current, p)
            <==> || (f == New(p) && p !in b.tracked)
                 || (f == Grew(p) && p in b.tracked && current[p] > b.tracked[p])
    ensures f in ImprovementIn(b, current, p) <==> f == Shrank(p) && p in b.tracked && current[p] < b.tracked[p]
  {
  }

  lemma Reported(b: Baseline, current: Counts, regressions: seq<Finding>, improvements: seq<Finding>)
    requires Regressions(b, current, current.Keys, regressions)
    requires Improvements(b, current, current.Keys, b.tracked.Keys - current.Keys, improvements)
    ensures TotalChanged in regressions <==> Total(current) > b.total
    ensures TotalChanged in improvements <==> Total(current) < b.total
    ensures forall p :: New(p) in regressions <==> p in current && p !in b.tracked
    ensures forall p :: Grew(p) in regressions <==> p in current && p in b.tracked && current[p] > b.tracked[p]
    ensures forall p :: Shrank(p) in improvements <==> p in current && p in b.tracked && current[p] < b.tracked[p]
    ensures forall p :: Removed(p) in improvements <==> p in b.tracked && p !in current
  {
    hide Total, RegressionIn, ImprovementIn;
    forall p, f | p in current
      ensures f in RegressionIn(b, current, p)
              <==> || (f == New(p) && p !in b.tracked)
                   || (f == Grew(p) && p in b.tracked && current[p] > b.tracked[p])
      ensures f in ImprovementIn(b, current, p) <==> f == Shrank(p) && p in b.tracked && current[p] < b.tracked[p]
    {
      FoundIn(b, current, p, f);
    }
  }

  /** The loop over the files of the baseline. */
  method CompareBaseline(b: Baseline, current: Counts, improvements: seq<Finding>)
      returns (improvements': seq<Finding>)
    requires Improvements(b, current, current.Keys, {}, improvements)
    ensures Improvements(b, current, current.Keys, b.tracked.Keys - current.Keys, improvements')
  {
    hide Total, Improvements;
    improvements' := improvements;
    var todo := b.tracked.Keys;
    ghost var gone: set<string> := {};
    while todo != {}
      invariant todo <= b.tracked.Keys
      invariant forall p :: p in gone <==> p in b.tracked && p !in current && p !in todo
      invariant Improvements(b, current, current.Keys, gone, improvements')
      decreases |todo|
    {
      var path :| path in todo;
      todo := todo - {path};
      if path !in current {
        NextRemoved(b, current, gone, path, improvements');
        improvements' := improvements' + [Removed(path)];
        gone := gone + {path};
      }
    }
    assert gone == b.tracked.Keys - current.Keys;
  }

  /** The loop over the current files. */
  method CompareFiles(b: Baseline, current: Counts, regressions: seq<Finding>, improvements: seq<Finding>)
      returns (regressions': seq<Finding>, improvements': seq<Finding>)
    requires Regressions(b, current, {}, regressions) && Improvements(b, current, {}, {}, improvements)
    ensures Regressions(b, current, current.Keys, regressions')
    ensures Improvements(b, current, current.Keys, {}, improvements')
  {
    hide Total, Regressions, Improvements;
    regressions', improvements' := regressions, improvements;
    var todo := current.Keys;
    assert current.Keys - todo == {};
    while todo != {}
      invariant todo <= current.Keys
      invariant Regressions(b, current, current.Keys - todo, regressions')
      invariant Improvements(b, current, current.Keys - todo, {}, improvements')
      decreases |todo|
    {
      var path :| path in todo;
      NextFile(b, current, current.Keys - todo, path, regressions', improvements');
      assert current.Keys - (todo - {path}) == current.Keys - todo + {path};
      todo := todo - {path};
      ghost var before := (regressions', improvements');
      if path !in b.tracked {
        regressions' := regressions' + [New(path)];
      } else if current[path] > b.tracked[path] {
        regressions' := regressions' + [Grew(path)];
      } else if current[path] < b.tracked[path] {
        improvements' := improvements' + [Shrank(path)];
      }
      assert regressions' == before.0 + RegressionIn(b, current, path);
      assert improvements' == before.1 + ImprovementIn(b, current, path);
    }
    assert current.Keys - todo == current.Keys;
  }

  /** `write_baseline`. */
  method WriteBaseline(counts: Counts) returns (b: Baseline)
    ensures b == Baseline(Total(counts), counts)
  {
    var total := SumCounts(counts);
    b := Baseline(total, counts);
  }

  /** Against a written baseline a check passes exactly when no file has more uses than before. */
  lemma PassesIffNoFileGrew(counts: Counts, current: Counts)
    requires Positive(current)
    ensures Passes(Baseline(Total(counts), counts), current) <==> NoFileGrew(counts, current)
  {
    if NoFileGrew(counts, current) {
      TotalMonotone(counts, current);
      forall p | p in current
        ensures p in counts && current[p] <= counts[p]
      {
        assert CountOf(current, p) <= CountOf(counts, p);
      }
    }
  }

  // ---------- checks and updates over time ----------

  /** One invocation of the script on the counts of that moment. */
  datatype Run = CheckRun(current: Counts) | UpdateRun(current: Counts)

  /** `main`: only `--update` writes the baseline, and it does so without checking. */
  method Invoke(b: Baseline, run: Run) returns (code: int, b': Baseline)
    ensures code == if run.UpdateRun? || Passes(b, run.current) then 0 else 1
    ensures b' == After(b, run)
  {
    b' := b;
    if run.UpdateRun? {
      b' := WriteBaseline(run.current);
      return 0, b';
    }
    var regressions, improvements;
    code, regressions, improvements := Check(b, run.current);
  }

  ghost function After(b: Baseline, run: Run): Baseline {
    if run.UpdateRun? then Baseline(Total(run.current), run.current) else b
  }

  /** The baseline in force before run `n`. */
  ghost function InForce(b: Baseline, runs: seq<Run>, n: nat): Baseline
    requires n <= |runs|
  {
    if n == 0 then b else After(InForce(b, runs, n - 1), runs[n - 1])
  }

  /** Every update is made in a state that would have passed the check. */
  ghost predicate UpdatesPass(b: Baseline, runs: seq<Run>) {
    forall n :: 0 <= n < |runs| && runs[n].UpdateRun? ==> Passes(InForce(b, runs, n), runs[n].current)
  }

  ghost predicate Within(current: Counts, b: Baseline) {
    NoFileGrew(b.tracked, current) && Total(current) <= b.total
  }

  lemma PassingIsWithin(b: Baseline, current: Counts)
    requires Positive(current)
    ensures Passes(b, current) <==> Within(current, b)
  {
    if Within(current, b) {
      forall p | p in current
        ensures p in b.tracked && current[p] <= b.tracked[p]
      {
        assert CountOf(current, p) <= CountOf(b.tracked, p);
      }
    }
  }

  /** What passes against a baseline written in a passing state would have passed before it, too. */
  lemma StepTightens(b: Baseline, run: Run, current: Counts)
    requires run.UpdateRun? ==> Passes(b, run.current)
    requires Passes(After(b, run), current)
    ensures Passes(b, current)
  {
    hide Total;
  }

  lemma {:induction false} PassesEarlier(b: Baseline, runs: seq<Run>, n: nat, k: nat, current: Counts)
    requires n <= k <= |runs| && UpdatesPass(b, runs) && Passes(InForce(b, runs, k), current)
    ensures Passes(InForce(b, runs, n), current)
    decreases k
  {
    hide Passes, Total, After;
    if n < k {
      StepTightens(InForce(b, runs, k - 1), runs[k - 1], current);
      PassesEarlier(b, runs, n, k - 1, current);
    }
  }

  /** Whatever passes at some moment passes against every baseline that was in force before. */
  ghost predicate NeverLoosens(b: Baseline, runs: seq<Run>) {
    forall n, k, current :: 0 <= n <= k <= |runs| && Passes(InForce(b, runs, k), current) ==>
      Passes(InForce(b, runs, n), current)
  }

  /** A sequence of checks and updates keeps the ratchet exactly when every update was made in a passing state. */
  lemma NeverLoosensIff(b: Baseline, runs: seq<Run>)
    ensures NeverLoosens(b, runs) <==> UpdatesPass(b, runs)
  {
    hide Passes, Total;
    if UpdatesPass(b, runs) {
      forall n, k, current | 0 <= n <= k <= |runs| && Passes(InForce(b, runs, k), current)
        ensures Passes(InForce(b, runs, n), current)
      {
        PassesEarlier(b, runs, n, k, current);
      }
    }
    if NeverLoosens(b, runs) {
      forall n | 0 <= n < |runs| && runs[n].UpdateRun?
        ensures Passes(InForce(b, runs, n), runs[n].current)
      {
        PassesItself(runs[n].current);
        assert InForce(b, runs, n + 1) == After(InForce(b, runs, n), runs[n]);
      }
    }
  }

  lemma PassesItself(counts: Counts)
    ensures Passes(Baseline(Total(counts), counts), counts)
  {
    hide Total;
  }

  /** With updates made in passing states, what passes stays within every baseline that was ever in force. */
  lemma PassingStaysWithinAll(b: Baseline, runs: seq<Run>, n: nat, k: nat, current: Counts)
    requires n <= k <= |runs| && UpdatesPass(b, runs)
    requires Positive(current) && Passes(InForce(b, runs, k), current)
    ensures Within(current, InForce(b, runs, n))
  {
    hide Passes, Within, Total;
    PassesEarlier(b, runs, n, k, current);
    PassingIsWithin(InForce(b, runs, n), current);
  }

  lemma {:induction false} SingleTotal(p: string, n: nat)
    ensures Total(map[p := n]) == n
  {
    TotalRemove(map[p := n], p);
    assert map[p := n] - {p} == map[];
  }

  /** Checks alone do not move the baseline: five uses, then three, then five again all pass. */
  lemma ChecksAloneLetCountsGrowBack(p: string)
    ensures var b := Baseline(5, map[p := 5]);
      Passes(b, map[p := 3]) && Passes(b, map[p := 5]) && !NoFileGrew(map[p := 3], map[p := 5])
  {
    SingleTotal(p, 3);
    SingleTotal(p, 5);
    assert CountOf(map[p := 5], p) > CountOf(map[p := 3], p);
  }
}
