/** The terminal side of scripts/verify_light_theme.py: answering queries found in a program's output. */
module QueryResponder {
  import opened Utils

  const ESC: char := '\U{1b}'
  const BEL: char := '\U{7}'
  const N: nat := 9

  // ---------- the table ----------

  function Query(k: nat): (q: string)
    requires k < N
    ensures |q| >= 3 && q[0] == ESC
  {
    match k
    case 0 => [ESC, '[', '6', 'n']
    case 1 => [ESC, '[', 'c']
    case 2 => [ESC, ']', '1', '0', ';', '?', ESC, '\\']
    case 3 => [ESC, ']', '1', '1', ';', '?', ESC, '\\']
    case 4 => [ESC, ']', '1', '0', ';', '?', BEL]
    case 5 => [ESC, ']', '1', '1', ';', '?', BEL]
    case 6 => [ESC, '[', '1', '4', 't']
    case 7 => [ESC, '[', '1', '6', 't']
    case _ => [ESC, '[', '1', '8', 't']
  }

  function Color(code: string, channel: string, end: string): string {
    [ESC] + "]" + code + ";rgb:" + channel + "/" + channel + "/" + channel + end
  }

  /** `bg` is "ffff" or "0000" per channel; the foreground is the opposite. */
  function Response(k: nat, bg: string): string
    requires k < N
  {
    var fg := if bg == "ffff" then "0000" else "ffff";
    match k
    case 0 => [ESC] + "[1;1R"
    case 1 => [ESC] + "[?62;c"
    case 2 => Color("10", fg, [ESC, '\\'])
    case 3 => Color("11", bg, [ESC, '\\'])
    case 4 => Color("10", fg, [BEL])
    case 5 => Color("11", bg, [BEL])
    case 6 => [ESC] + "[4;600;800t"
    case 7 => [ESC] + "[6;16;8t"
    case _ => [ESC] + "[8;24;80t"
  }

  /** The query for a color, by its code and how it ends. */
  lemma ColorQuery(k: nat)
    requires 2 <= k <= 5
    ensures Query(k) == [ESC, ']', '1', if k % 2 == 0 then '0' else '1', ';', '?']
                        + if k <= 3 then [ESC, '\\'] else [BEL]
  {
  }

  /**
   * A color report repeats the query with the color instead of the question mark, and ends as the query does. Code 11
   * asks for the background and is told `bg`, code 10 asks for the foreground and is told the opposite.
   */
  lemma ColorReports(k: nat, bg: string)
    requires 2 <= k <= 5
    ensures var color := if k % 2 == 1 then bg else if bg == "ffff" then "0000" else "ffff";
      var end := if k <= 3 then [ESC, '\\'] else [BEL];
      && (k % 2 == 0 ==> color != bg)
      && Query(k) == ColorCode(k) + "?" + end
      && Response(k, bg) == ColorCode(k) + "rgb:" + color + "/" + color + "/" + color + end
  {
    ColorQuery(k);
    ColorStart(if k % 2 == 0 then "10" else "11");
  }

  /** What a color query and its report have in common. */
  function ColorCode(k: nat): string {
    [ESC, ']', '1', if k % 2 == 0 then '0' else '1', ';']
  }

  lemma ColorStart(code: string)
    requires |code| == 2
    ensures forall channel, end: string ::
              Color(code, channel, end)
              == [ESC, ']', code[0], code[1], ';'] + "rgb:" + channel + "/" + channel + "/" + channel + end
  {
    assert [ESC] + "]" + code + ";rgb:" == [ESC, ']', code[0], code[1], ';'] + "rgb:";
  }

  // ---------- finding ----------

  predicate Matches(b: string, i: nat, q: string) {
    i + |q| <= |b| && b[i..i + |q|] == q
  }

  /** `buffer.find(query)`, None for -1. */
  function Find(b: string, q: string, i: nat): (r: Option<nat>)
    ensures r.Some? ==> i <= r.value && Matches(b, r.value, q) && forall j :: i <= j < r.value ==> !Matches(b, j, q)
    ensures r.None? ==> forall j :: i <= j ==> !Matches(b, j, q)
    decreases |b| - i
  {
    if Matches(b, i, q) then Some(i) else if i >= |b| then None else Find(b, q, i + 1)
  }

  /** Occurrence `f` is the leftmost of any query among the first `n`, the earliest in the table on a tie. */
  ghost predicate IsFirst(b: string, n: nat, f: Option<(nat, nat)>)
    requires n <= N
  {
    match f
    case None => forall k, i :: 0 <= k < n ==> !Matches(b, i, Query(k))
    case Some((at, which)) =>
      && which < n && Matches(b, at, Query(which))
      && (forall k, i :: 0 <= k < n && 0 <= i < at ==> !Matches(b, i, Query(k)))
      && (forall k :: 0 <= k < which ==> !Matches(b, at, Query(k)))
  }

  lemma NothingIsFirst(b: string)
    ensures IsFirst(b, 0, None)
  {
  }

  lemma NextIsFirst(b: string, n: nat, f: Option<(nat, nat)>, q: string, idx: Option<nat>)
    requires 0 < n <= N && IsFirst(b, n - 1, f) && q == Query(n - 1)
    requires idx.Some? ==> Matches(b, idx.value, q) && forall j :: 0 <= j < idx.value ==> !Matches(b, j, q)
    requires idx.None? ==> forall j :: 0 <= j ==> !Matches(b, j, q)
    ensures IsFirst(b, n, if idx.Some? && (f.None? || idx.value < f.value.0) then Some((idx.value, n - 1)) else f)
  {
    hide Query, Matches;
  }

  function First(b: string, n: nat): (f: Option<(nat, nat)>)
    requires n <= N
    ensures IsFirst(b, n, f)
  {
    hide Query, Matches, IsFirst;
    if n == 0 then NothingIsFirst(b); None else
    var f := First(b, n - 1);
    var idx := Find(b, Query(n - 1), 0);
    NextIsFirst(b, n, f, Query(n - 1), idx);
    if idx.Some? && (f.None? || idx.value < f.value.0) then Some((idx.value, n - 1)) else f
  }

  lemma FirstIsUnique(b: string, f: Option<(nat, nat)>)
    requires IsFirst(b, N, f)
    ensures First(b, N) == f
  {
    hide Query, Matches;
    var g := First(b, N);
    assert IsFirst(b, N, g);
  }

  function Remove(b: string, at: nat, q: string): string
    requires at + |q| <= |b|
  {
    b[..at] + b[at + |q|..]
  }

  /** What is left of a buffer and what is written for it: the leftmost query is answered and removed first. */
  function Respond(b: string, bg: string): (string, seq<string>)
    decreases |b|
  {
    match First(b, N)
    case None => (b, [])
    case Some((at, k)) =>
      var (rest, written) := Respond(Remove(b, at, Query(k)), bg);
      (rest, [Response(k, bg)] + written)
  }

  /** `reply_queries`: it terminates on every buffer and leaves no query in the result. */
  method ReplyQueries(buffer: string, bg: string) returns (rest: string, written: seq<string>)
    ensures rest == Respond(buffer, bg).0 && written == Respond(buffer, bg).1
    ensures IsFirst(rest, N, None)
  {
    hide Query, Response, Matches;
    rest, written := buffer, [];
    while true
      invariant Respond(buffer, bg).0 == Respond(rest, bg).0
      invariant Respond(buffer, bg).1 == written + Respond(rest, bg).1
      decreases |rest|
    {
      var first: Option<(nat, nat)> := None;
      for k := 0 to N
        invariant first == First(rest, k)
      {
        var idx := Find(rest, Query(k), 0);
        if idx.Some? && (first.None? || idx.value < first.value.0) {
          first := Some((idx.value, k));
        }
      }
      if first.None? {
        return;
      }
      var (at, k) := first.value;
      InRange(rest, at, k);
      written := written + [Response(k, bg)];
      rest := Remove(rest, at, Query(k));
    }
  }

  lemma InRange(b: string, at: nat, k: nat)
    requires k < N && Matches(b, at, Query(k))
    ensures at + |Query(k)| <= |b|
  {
  }

  // ---------- occurrences of queries never overlap ----------

  /** Two different queries differ at a position both have. */
  lemma PrefixFree(j: nat, k: nat)
    requires j < N && k < N && j != k
    ensures exists i :: 0 <= i < |Query(j)| && i < |Query(k)| && Query(j)[i] != Query(k)[i]
  {
    var i := if Query(j)[1] != Query(k)[1] then 1 else if Query(j)[2] != Query(k)[2] then 2
             else if Query(j)[3] != Query(k)[3] then 3 else 6;
    assert Query(j)[i] != Query(k)[i];
  }

  /** An escape character inside a query is followed by a backslash that ends it; no query has one in second place. */
  lemma EscInside(k: nat, i: nat)
    requires k < N && 0 < i < |Query(k)| && Query(k)[i] == ESC
    ensures i == |Query(k)| - 2 && Query(k)[i + 1] == '\\'
  {
  }

  lemma SecondCharacter(k: nat)
    requires k < N
    ensures Query(k)[1] != ESC && Query(k)[1] != '\\'
  {
  }

  lemma CharacterOfMatch(b: string, at: nat, k: nat, i: nat)
    requires k < N && Matches(b, at, Query(k)) && i < |Query(k)|
    ensures at + i < |b| && b[at + i] == Query(k)[i]
  {
    hide Query;
    assert b[at..at + |Query(k)|][i] == b[at + i];
  }

  lemma OnlyOneMatches(b: string, at: nat, k: nat, j: nat)
    requires k < N && j < N && Matches(b, at, Query(k)) && Matches(b, at, Query(j))
    ensures j == k
  {
    hide Query;
    if j != k {
      PrefixFree(j, k);
      var i :| 0 <= i < |Query(j)| && i < |Query(k)| && Query(j)[i] != Query(k)[i];
      CharacterOfMatch(b, at, k, i);
      CharacterOfMatch(b, at, j, i);
      assert false;
    }
  }

  /** An occurrence that starts before another one ends before it. */
  lemma NoOverlap(b: string, i: nat, j: nat, at: nat, k: nat)
    requires j < N && k < N && i < at && Matches(b, i, Query(j)) && Matches(b, at, Query(k))
    ensures i + |Query(j)| <= at
  {
    hide Query, Matches;
    if at < i + |Query(j)| {
      CharacterOfMatch(b, i, j, at - i);
      CharacterOfMatch(b, at, k, 0);
      EscInside(j, at - i);
      CharacterOfMatch(b, i, j, at - i + 1);
      CharacterOfMatch(b, at, k, 1);
      SecondCharacter(k);
      assert false;
    }
  }

  ghost predicate NoQuery(s: string) {
    forall k, i :: 0 <= k < N ==> !Matches(s, i, Query(k))
  }

  lemma FirstNone(s: string)
    ensures NoQuery(s) <==> First(s, N) == None
  {
    hide Query, Matches;
    if NoQuery(s) {
      FirstIsUnique(s, None);
    }
  }

  lemma MatchInPrefix(s: string, u: string, i: nat, q: string)
    ensures Matches(s, i, q) ==> Matches(s + u, i, q)
    ensures Matches(s + u, i, q) && i + |q| <= |s| ==> Matches(s, i, q)
  {
    if i + |q| <= |s| {
      assert (s + u)[i..i + |q|] == s[i..i + |q|];
    }
  }

  lemma NoQueryInPrefix(s: string, u: string)
    requires NoQuery(s + u)
    ensures NoQuery(s)
  {
    hide Query, Matches;
    forall k, i | 0 <= k < N && 0 <= i
      ensures !Matches(s, i, Query(k))
    {
      MatchInPrefix(s, u, i, Query(k));
    }
  }

  /** Text that holds no query changes nothing about the first query after it, whatever comes next. */
  lemma QueryAfterText(t: string, k: nat, rest: string)
    requires NoQuery(t) && k < N
    ensures First(t + Query(k) + rest, N) == Some((|t|, k))
    ensures Remove(t + Query(k) + rest, |t|, Query(k)) == t + rest
  {
    hide Query;
    var b := t + Query(k) + rest;
    assert Matches(b, |t|, Query(k));
    assert b == t + (Query(k) + rest);
    forall j, i | 0 <= j < N && 0 <= i < |t|
      ensures !Matches(b, i, Query(j))
    {
      if Matches(b, i, Query(j)) {
        NoOverlap(b, i, j, |t|, k);
        MatchInPrefix(t, Query(k) + rest, i, Query(j));
      }
    }
    forall j | 0 <= j < k
      ensures !Matches(b, |t|, Query(j))
    {
      if Matches(b, |t|, Query(j)) {
        OnlyOneMatches(b, |t|, k, j);
      }
    }
    FirstIsUnique(b, Some((|t|, k)));
  }

  lemma AnswerAfterText(t: string, k: nat, rest: string, bg: string)
    requires NoQuery(t) && k < N
    ensures Respond(t + Query(k) + rest, bg).0 == Respond(t + rest, bg).0
    ensures Respond(t + Query(k) + rest, bg).1 == [Response(k, bg)] + Respond(t + rest, bg).1
  {
    hide Query, Response, First, Remove, NoQuery;
    QueryAfterText(t, k, rest);
  }

  lemma NothingToAnswer(t: string, bg: string)
    requires NoQuery(t)
    ensures Respond(t, bg).0 == t && Respond(t, bg).1 == []
  {
    hide Query, Response, Matches;
    FirstNone(t);
  }

  lemma {:induction false} RespondLeavesNone(b: string, bg: string)
    ensures First(Respond(b, bg).0, N) == None
    decreases |b|
  {
    hide Query, Response, Matches;
    var f := First(b, N);
    if f.Some? {
      InRange(b, f.value.0, f.value.1);
      RespondLeavesNone(Remove(b, f.value.0, Query(f.value.1)), bg);
    }
  }

  // ---------- streams of text and queries ----------

  type QueryId = k: nat | k < N

  /** A stream is any text, escape sequences included, with queries in between. */
  datatype Token = Text(text: string) | Ask(query: QueryId)

  ghost function Render(ts: seq<Token>): string {
    if ts == [] then "" else (match ts[0] case Text(s) => s case Ask(k) => Query(k)) + Render(ts[1..])
  }

  ghost function TextOf(ts: seq<Token>): string {
    if ts == [] then "" else (if ts[0].Text? then ts[0].text else "") + TextOf(ts[1..])
  }

  ghost function ResponsesTo(ts: seq<Token>, bg: string): seq<string> {
    if ts == [] then [] else (if ts[0].Ask? then [Response(ts[0].query, bg)] else []) + ResponsesTo(ts[1..], bg)
  }

  lemma ConcatAssociates(a: string, b: string, c: string)
    ensures a + (b + c) == a + b + c
  {
  }

  lemma RenderText(t: string, ts: seq<Token>, bg: string)
    requires ts != [] && ts[0].Text?
    ensures t + Render(ts) == t + ts[0].text + Render(ts[1..])
    ensures t + TextOf(ts) == t + ts[0].text + TextOf(ts[1..])
    ensures ResponsesTo(ts, bg) == ResponsesTo(ts[1..], bg)
  {
    hide Response, Query;
    ConcatAssociates(t, ts[0].text, Render(ts[1..]));
    ConcatAssociates(t, ts[0].text, TextOf(ts[1..]));
  }

  lemma RenderAsk(t: string, ts: seq<Token>, bg: string)
    requires ts != [] && ts[0].Ask?
    ensures t + Render(ts) == t + Query(ts[0].query) + Render(ts[1..])
    ensures TextOf(ts) == TextOf(ts[1..])
    ensures ResponsesTo(ts, bg) == [Response(ts[0].query, bg)] + ResponsesTo(ts[1..], bg)
  {
    hide Response, Query;
    ConcatAssociates(t, Query(ts[0].query), Render(ts[1..]));
  }

  lemma RenderNothing(t: string, bg: string)
    ensures t + Render([]) == t && t + TextOf([]) == t && ResponsesTo([], bg) == []
  {
  }

  lemma {:induction false} StreamAnsweredAfter(t: string, ts: seq<Token>, bg: string)
    requires NoQuery(t + TextOf(ts))
    ensures Respond(t + Render(ts), bg).0 == t + TextOf(ts)
    ensures Respond(t + Render(ts), bg).1 == ResponsesTo(ts, bg)
    decreases |ts|
  {
    hide Query, Response, Respond, Render, TextOf, ResponsesTo, NoQuery;
    NoQueryInPrefix(t, TextOf(ts));
    if ts == [] {
      RenderNothing(t, bg);
      NothingToAnswer(t, bg);
    } else if ts[0].Text? {
      RenderText(t, ts, bg);
      StreamAnsweredAfter(t + ts[0].text, ts[1..], bg);
    } else {
      RenderAsk(t, ts, bg);
      AnswerAfterText(t, ts[0].query, Render(ts[1..]), bg);
      StreamAnsweredAfter(t, ts[1..], bg);
    }
  }

  /**
   * A stream gets exactly its responses, in order, and leaves exactly its text,
   * if and only if the text without the queries holds no query itself.
   */
  lemma StreamAnsweredIff(ts: seq<Token>, bg: string)
    ensures Respond(Render(ts), bg).0 == TextOf(ts) && Respond(Render(ts), bg).1 == ResponsesTo(ts, bg)
            <==> First(TextOf(ts), N) == None
  {
    hide Query, Response, Respond, Render, TextOf, ResponsesTo, NoQuery, First;
    FirstNone(TextOf(ts));
    assert "" + Render(ts) == Render(ts) && "" + TextOf(ts) == TextOf(ts);
    if NoQuery(TextOf(ts)) {
      StreamAnsweredAfter("", ts, bg);
    }
    RespondLeavesNone(Render(ts), bg);
  }

  /** One query asked, two answered: the text around it is a query once it is gone. */
  lemma StrayEscapeIsSpliced(bg: string)
    ensures Respond([ESC] + Query(1) + "[c", bg).1 == [Response(1, bg), Response(1, bg)]
  {
    hide Response, First;
    ShortHasNoQuery([ESC]);
    AnswerAfterText([ESC], 1, "[c", bg);
    ShortHasNoQuery("");
    assert [ESC] + "[c" == "" + Query(1) + "";
    AnswerAfterText("", 1, "", bg);
    assert "" + "" == "";
    NothingToAnswer("", bg);
  }

  lemma ShortHasNoQuery(s: string)
    requires |s| < 3
    ensures NoQuery(s)
  {
    hide Query;
  }

  // ---------- answering a stream as it arrives ----------

  lemma FirstInPrefix(p: string, u: string)
    requires First(p, N).Some?
    ensures First(p + u, N) == First(p, N)
  {
    hide Query, Matches, First;
    assert IsFirst(p, N, First(p, N)) by {
      FirstMeets(p);
    }
    var (at, k) := First(p, N).value;
    MatchInPrefix(p, u, at, Query(k));
    forall j, i | 0 <= j < N && 0 <= i < at
      ensures !Matches(p + u, i, Query(j))
    {
      if Matches(p + u, i, Query(j)) {
        NoOverlap(p + u, i, j, at, k);
        InRange(p, at, k);
        MatchInPrefix(p, u, i, Query(j));
      }
    }
    forall j | 0 <= j < k
      ensures !Matches(p + u, at, Query(j))
    {
      if Matches(p + u, at, Query(j)) {
        OnlyOneMatches(p + u, at, k, j);
      }
    }
    FirstIsUnique(p + u, First(p, N));
  }

  lemma FirstMeets(b: string)
    ensures IsFirst(b, N, First(b, N))
  {
  }

  lemma AnswerFirst(b: string, bg: string)
    requires First(b, N).Some?
    ensures var (at, k) := First(b, N).value;
      && k < N && at + |Query(k)| <= |b|
      && Respond(b, bg).0 == Respond(Remove(b, at, Query(k)), bg).0
      && Respond(b, bg).1 == [Response(k, bg)] + Respond(Remove(b, at, Query(k)), bg).1
  {
    hide Query, Response, First, Remove;
    FirstMeets(b);
  }

  lemma RemoveInPrefix(p: string, u: string, at: nat, q: string)
    requires at + |q| <= |p|
    ensures Remove(p + u, at, q) == Remove(p, at, q) + u && |Remove(p, at, q)| == |p| - |q|
  {
  }

  /** Answering a prefix first changes nothing, whatever the bytes are. */
  lemma {:induction false} PrefixFirst(p: string, u: string, bg: string)
    ensures Respond(p + u, bg).0 == Respond(Respond(p, bg).0 + u, bg).0
    ensures Respond(p + u, bg).1 == Respond(p, bg).1 + Respond(Respond(p, bg).0 + u, bg).1
    decreases |p|
  {
    hide Query, Response, First, Respond, Remove;
    if First(p, N).Some? {
      FirstInPrefix(p, u);
      AnswerFirst(p, bg);
      AnswerFirst(p + u, bg);
      var (at, k) := First(p, N).value;
      RemoveInPrefix(p, u, at, Query(k));
      PrefixFirst(Remove(p, at, Query(k)), u, bg);
    } else {
      NoneMeansUntouched(p, bg);
    }
  }

  lemma NoneMeansUntouched(b: string, bg: string)
    requires First(b, N) == None
    ensures Respond(b, bg).0 == b && Respond(b, bg).1 == []
  {
    hide First;
  }

  function Join(chunks: seq<string>): string {
    if chunks == [] then "" else chunks[0] + Join(chunks[1..])
  }

  /** The capture loop on values: each chunk is appended to what was left over, and the result answered. */
  function Feed(buf: string, chunks: seq<string>, bg: string): (string, seq<string>)
    decreases |chunks|
  {
    if chunks == [] then (buf, []) else
    var (rest, written) := Respond(buf + chunks[0], bg);
    var (final, more) := Feed(rest, chunks[1..], bg);
    (final, written + more)
  }

  method Capture(chunks: seq<string>, bg: string) returns (buf: string, written: seq<string>)
    ensures buf == Feed("", chunks, bg).0 && written == Feed("", chunks, bg).1
  {
    hide Respond, IsFirst;
    buf, written := "", [];
    for i := 0 to |chunks|
      invariant Feed("", chunks, bg).0 == Feed(buf, chunks[i..], bg).0
      invariant Feed("", chunks, bg).1 == written + Feed(buf, chunks[i..], bg).1
    {
      assert chunks[i..][1..] == chunks[i + 1..];
      var more;
      buf, more := ReplyQueries(buf + chunks[i], bg);
      written := written + more;
    }
  }

  lemma {:induction false} FeedIsRespond(buf: string, chunks: seq<string>, bg: string)
    requires First(buf, N) == None
    ensures Feed(buf, chunks, bg).0 == Respond(buf + Join(chunks), bg).0
    ensures Feed(buf, chunks, bg).1 == Respond(buf + Join(chunks), bg).1
    decreases |chunks|
  {
    hide Query, Response, First, Respond, NoQuery;
    if chunks == [] {
      assert buf + "" == buf;
      FirstNone(buf);
      NothingToAnswer(buf, bg);
    } else {
      assert buf + Join(chunks) == buf + chunks[0] + Join(chunks[1..]);
      PrefixFirst(buf + chunks[0], Join(chunks[1..]), bg);
      RespondLeavesNone(buf + chunks[0], bg);
      FeedIsRespond(Respond(buf + chunks[0], bg).0, chunks[1..], bg);
    }
  }

  /** However any byte stream is cut into chunks, the capture loop answers as if it had all arrived at once. */
  lemma ChunkingDoesNotMatter(chunks: seq<string>, bg: string)
    ensures Feed("", chunks, bg).0 == Respond(Join(chunks), bg).0
    ensures Feed("", chunks, bg).1 == Respond(Join(chunks), bg).1
  {
    hide Query, Response, First, Respond, NoQuery;
    ShortHasNoQuery("");
    FirstNone("");
    assert "" + Join(chunks) == Join(chunks);
    FeedIsRespond("", chunks, bg);
  }
}
