/** The read loop of a gateway connection: frames in, requests and pongs out (ios/TestHarness/mock_gateway.py). */
module RequestLoop {
  import opened Frames

  // ---------- lines ----------

  /** The characters `str.strip` removes. */
  predicate IsSpace(c: char) {
    || '\t' <= c <= '\r' || '\U{1c}' <= c <= ' ' || c == '\U{85}' || c == '\U{a0}' || c == '\U{1680}'
    || '\U{2000}' <= c <= '\U{200a}' || c == '\U{2028}' || c == '\U{2029}' || c == '\U{202f}' || c == '\U{205f}'
    || c == '\U{3000}'
  }

  function Strip(s: string): string {
    if s == "" then ""
    else if IsSpace(s[0]) then Strip(s[1..])
    else if IsSpace(s[|s| - 1]) then Strip(s[..|s| - 1])
    else s
  }

  ghost predicate AllSpace(s: string) {
    forall i :: 0 <= i < |s| ==> IsSpace(s[i])
  }

  /** `buffered.split("\n", 1)` at the first newline. */
  function LineEnd(s: string): (i: nat)
    ensures i <= |s| && (i < |s| ==> s[i] == '\n') && '\n' !in s[..i]
  {
    if s == "" || s[0] == '\n' then 0 else 1 + LineEnd(s[1..])
  }

  function NonBlank(line: string): seq<string> {
    if Strip(line) == "" then [] else [Strip(line)]
  }

  /** The requests in a text taken by itself: its lines, trimmed, without the blank ones. */
  function Requests(text: string): seq<string>
    decreases |text|
  {
    var i := LineEnd(text);
    if i == |text| then NonBlank(text) else NonBlank(text[..i]) + Requests(text[i + 1..])
  }

  /** Stripping takes away white space at both ends and leaves none there. */
  lemma {:induction false} StripIs(s: string) returns (before: string, after: string)
    ensures s == before + Strip(s) + after && AllSpace(before) && AllSpace(after)
    ensures Strip(s) != "" ==> !IsSpace(Strip(s)[0]) && !IsSpace(Strip(s)[|Strip(s)| - 1])
    decreases |s|
  {
    hide IsSpace, AllSpace, Strip;
    StripStep(s);
    before, after := "", "";
    if s != "" {
      if IsSpace(s[0]) {
        before, after := StripIs(s[1..]);
        SpaceAround(s[0], before);
        InFront([s[0]], before, Strip(s), after);
        assert s == [s[0]] + s[1..];
        before := [s[0]] + before;
      } else if IsSpace(s[|s| - 1]) {
        before, after := StripIs(s[..|s| - 1]);
        SpaceAround(s[|s| - 1], after);
        assert s == s[..|s| - 1] + [s[|s| - 1]];
        after := after + [s[|s| - 1]];
      }
    }
  }

  lemma StripStep(s: string)
    ensures AllSpace("") && (s == "" ==> Strip(s) == "")
    ensures s != "" && IsSpace(s[0]) ==> Strip(s) == Strip(s[1..])
    ensures s != "" && !IsSpace(s[0]) && IsSpace(s[|s| - 1]) ==> Strip(s) == Strip(s[..|s| - 1])
    ensures s != "" && !IsSpace(s[0]) && !IsSpace(s[|s| - 1]) ==> Strip(s) == s && "" + s + "" == s
  {
    hide IsSpace;
  }

  lemma SpaceAround(c: char, s: string)
    requires IsSpace(c) && AllSpace(s)
    ensures AllSpace([c] + s) && AllSpace(s + [c])
  {
    hide IsSpace;
  }

  lemma InFront(c: string, before: string, s: string, after: string)
    ensures c + (before + s + after) == c + before + s + after
  {
  }

  /** Lines put together, each but the last followed by a newline. */
  function JoinLines(lines: seq<string>): string {
    if lines == [] then "" else if |lines| == 1 then lines[0] else lines[0] + "\n" + JoinLines(lines[1..])
  }

  function NonBlanks(lines: seq<string>): seq<string> {
    if lines == [] then [] else
    (if Strip(lines[0]) == "" then [] else [Strip(lines[0])]) + NonBlanks(lines[1..])
  }

  /** The requests in a text are its lines that are not blank, stripped, in order. */
  lemma {:induction false} RequestsAreLines(lines: seq<string>)
    requires forall l :: l in lines ==> '\n' !in l
    ensures Requests(JoinLines(lines)) == NonBlanks(lines)
  {
    hide Strip, LineEnd;
    if lines == [] {
      BlankText();
    } else {
      var line, rest := lines[0], lines[1..];
      assert line in lines && forall l :: l in rest ==> l in lines;
      RequestsAreLines(rest);
      if rest == [] {
        NoNewline(line);
        assert line[..|line|] == line;
        assert NonBlanks(lines) == NonBlank(line);
      } else {
        var text := line + "\n" + JoinLines(rest);
        LineEndAfterPrefix(line, "\n" + JoinLines(rest));
        NewlineFirst(JoinLines(rest));
        assert text == line + ("\n" + JoinLines(rest));
        assert text[..|line|] == line && text[|line| + 1..] == JoinLines(rest);
      }
    }
  }

  lemma NewlineFirst(rest: string)
    ensures LineEnd("\n" + rest) == 0
  {
  }

  lemma {:induction false} StripAllSpace(s: string)
    ensures AllSpace(s) <==> Strip(s) == ""
    decreases |s|
  {
    if s != "" {
      if IsSpace(s[0]) {
        StripAllSpace(s[1..]);
        assert AllSpace(s) <==> AllSpace(s[1..]) by {
          assert s == [s[0]] + s[1..];
        }
      } else if IsSpace(s[|s| - 1]) {
        StripAllSpace(s[..|s| - 1]);
        assert !AllSpace(s[..|s| - 1]) by {
          assert s[..|s| - 1][0] == s[0];
        }
      }
    }
  }

  lemma {:induction false} StripLeadingSpace(w: string, s: string)
    requires AllSpace(w)
    ensures Strip(w + s) == Strip(s)
  {
    if w == "" {
      assert w + s == s;
    } else {
      assert (w + s)[1..] == w[1..] + s;
      StripLeadingSpace(w[1..], s);
    }
  }

  lemma {:induction false} LineEndAfterPrefix(w: string, s: string)
    requires '\n' !in w
    ensures LineEnd(w + s) == |w| + LineEnd(s)
  {
    if w == "" {
      assert w + s == s;
    } else {
      assert (w + s)[1..] == w[1..] + s;
      assert w[0] in w && forall c :: c in w[1..] ==> c in w;
      LineEndAfterPrefix(w[1..], s);
    }
  }

  lemma NonBlankAfterSpace(w: string, line: string)
    requires AllSpace(w)
    ensures NonBlank(w + line) == NonBlank(line)
  {
    hide IsSpace, Strip, AllSpace;
    StripLeadingSpace(w, line);
  }

  lemma PrefixedLine(w: string, s: string, i: nat)
    requires i < |s|
    ensures (w + s)[..|w| + i] == w + s[..i] && (w + s)[|w| + i + 1..] == s[i + 1..]
  {
  }

  /** Whitespace carried over from earlier frames changes no request. */
  lemma CarriedSpaceIsInert(w: string, s: string)
    requires '\n' !in w && AllSpace(w)
    ensures Requests(w + s) == Requests(s)
  {
    hide IsSpace, Strip, AllSpace, LineEnd, NonBlank;
    var i := LineEnd(s);
    LineEndAfterPrefix(w, s);
    if i == |s| {
      NonBlankAfterSpace(w, s);
    } else {
      PrefixedLine(w, s, i);
      NonBlankAfterSpace(w, s[..i]);
    }
  }

  // ---------- one text frame ----------

  datatype Act = Handle(request: string) | Pong(frame: Bytes)

  function Handles(requests: seq<string>): seq<Act> {
    seq(|requests|, i requires 0 <= i < |requests| => Handle(requests[i]))
  }

  lemma HandlesConcat(a: seq<string>, b: seq<string>)
    ensures Handles(a + b) == Handles(a) + Handles(b)
  {
  }

  lemma HandlesNonBlank(line: string)
    ensures Handles(NonBlank(line)) == if Strip(line) == "" then [] else [Handle(Strip(line))]
  {
  }

  /** The requests whose handler raises, such as one that is no JSON object. */
  type Failing = string -> bool

  predicate Raises(raises: Failing, a: Act) {
    a.Handle? && raises(a.request)
  }

  predicate Clean(raises: Failing, acts: seq<Act>) {
    forall a :: a in acts ==> !Raises(raises, a)
  }

  /** The actions up to and including the first that raises. */
  function Until(raises: Failing, acts: seq<Act>): seq<Act> {
    if acts == [] then []
    else if Raises(raises, acts[0]) then [acts[0]]
    else [acts[0]] + Until(raises, acts[1..])
  }

  lemma {:induction false} UntilClean(raises: Failing, a: seq<Act>, b: seq<Act>)
    requires Clean(raises, a)
    ensures Until(raises, a + b) == a + Until(raises, b)
  {
    hide Raises;
    if a == [] {
      assert a + b == b;
    } else {
      assert forall x :: x in a[1..] ==> x in a;
      UntilClean(raises, a[1..], b);
      assert a[0] in a && (a + b)[1..] == a[1..] + b;
    }
  }

  lemma {:induction false} UntilRaised(raises: Failing, a: seq<Act>, b: seq<Act>)
    requires !Clean(raises, a)
    ensures Until(raises, a + b) == Until(raises, a)
  {
    hide Raises;
    if !Raises(raises, a[0]) {
      assert a == [a[0]] + a[1..];
      UntilRaised(raises, a[1..], b);
      assert (a + b)[1..] == a[1..] + b;
    }
  }

  /** The loop ends cleanly with all actions, or with the first one that raises. */
  lemma {:induction false} UntilAll(raises: Failing, acts: seq<Act>)
    ensures Clean(raises, acts) ==> Until(raises, acts) == acts
    ensures Until(raises, acts) <= acts && (Clean(raises, acts) <==> Clean(raises, Until(raises, acts)))
    ensures !Clean(raises, acts) ==>
              var done := Until(raises, acts);
              done != [] && Raises(raises, done[|done| - 1]) && Clean(raises, done[..|done| - 1])
  {
    hide Raises;
    if acts != [] {
      assert acts == [acts[0]] + acts[1..];
      if !Raises(raises, acts[0]) {
        UntilAll(raises, acts[1..]);
        var done := Until(raises, acts[1..]);
        if !Clean(raises, acts[1..]) {
          assert ([acts[0]] + done)[..|done|] == [acts[0]] + done[..|done| - 1];
        }
      }
    }
  }

  /** The inner loop: every complete line, then the rest unless it is blank, until a handler raises. */
  method ServeText(buffered: string, text: string, raises: Failing) returns (acts: seq<Act>, rest: string, ok: bool)
    requires '\n' !in buffered && AllSpace(buffered)
    ensures acts == Until(raises, Handles(Requests(text)))
    ensures ok <==> Clean(raises, Handles(Requests(text)))
    ensures ok ==> '\n' !in rest && AllSpace(rest)
  {
    hide IsSpace, Strip, LineEnd, Handles, Until, Clean, Requests;
    CarriedSpaceIsInert(buffered, text);
    rest := buffered + text;
    acts := [];
    NothingRaises(raises);
    while '\n' in rest
      invariant acts + Handles(Requests(rest)) == Handles(Requests(text)) && Clean(raises, acts)
      decreases |rest|
    {
      FirstLine(rest);
      var i := LineEnd(rest);
      var line := Strip(rest[..i]);
      rest := rest[i + 1..];
      if line != "" {
        StepEnds(raises, acts, line, Handles(Requests(rest)));
        acts := acts + [Handle(line)];
        if raises(line) {
          return acts, rest, false;
        }
      }
    }
    LastLine(rest);
    assert acts + [] == acts;
    var last := Strip(rest);
    if last != "" {
      StepEnds(raises, acts, last, []);
      acts := acts + [Handle(last)];
      if raises(last) {
        return acts, rest, false;
      }
      rest := "";
    }
    NothingBuffered();
    UntilAll(raises, acts);
    ok := true;
  }

  lemma LineEndInside(rest: string)
    requires '\n' in rest
    ensures LineEnd(rest) < |rest|
  {
    hide LineEnd;
    assert rest[..|rest|] == rest;
  }

  lemma RequestsStep(rest: string)
    requires LineEnd(rest) < |rest|
    ensures var i := LineEnd(rest); Requests(rest) == NonBlank(rest[..i]) + Requests(rest[i + 1..])
  {
    hide LineEnd, NonBlank, IsSpace;
  }

  lemma FirstLine(rest: string)
    requires '\n' in rest
    ensures var i := LineEnd(rest);
      i < |rest| &&
      Handles(Requests(rest))
      == (if Strip(rest[..i]) == "" then [] else [Handle(Strip(rest[..i]))]) + Handles(Requests(rest[i + 1..]))
  {
    hide Strip, Handles, LineEnd, NonBlank, Requests;
    LineEndInside(rest);
    RequestsStep(rest);
    var i := LineEnd(rest);
    HandlesNonBlank(rest[..i]);
    HandlesConcat(NonBlank(rest[..i]), Requests(rest[i + 1..]));
  }

  lemma LastLine(rest: string)
    requires '\n' !in rest
    ensures Handles(Requests(rest)) == if Strip(rest) == "" then [] else [Handle(Strip(rest))]
    ensures Strip(rest) == "" <==> AllSpace(rest)
  {
    hide Strip, Handles, AllSpace;
    assert LineEnd(rest) == |rest|;
    StripAllSpace(rest);
    HandlesNonBlank(rest);
  }

  /** One request more: either its handler raises and nothing follows, or the loop goes on. */
  lemma StepEnds(raises: Failing, acts: seq<Act>, line: string, later: seq<Act>)
    requires Clean(raises, acts)
    ensures raises(line) ==>
              && !Clean(raises, acts + ([Handle(line)] + later))
              && Until(raises, acts + ([Handle(line)] + later)) == acts + [Handle(line)]
    ensures !raises(line) ==> Clean(raises, acts + [Handle(line)])
    ensures acts + ([Handle(line)] + later) == acts + [Handle(line)] + later
    ensures later == [] ==> acts + ([Handle(line)] + later) == acts + [Handle(line)]
  {
    UntilClean(raises, acts, [Handle(line)] + later);
    assert ([Handle(line)] + later)[0] in acts + ([Handle(line)] + later);
  }

  lemma NothingRaises(raises: Failing)
    ensures Clean(raises, [])
  {
  }

  // ---------- the whole connection ----------

  const TEXT: bv8 := 0x1
  const BINARY: bv8 := 0x2
  const CLOSE: bv8 := 0x8
  const PING: bv8 := 0x9
  const PONG: bv8 := 0xA

  type Decoder = Bytes -> string

  /** Whether the loop can go on after this read: a close frame ends it, and so does a ping that cannot be echoed. */
  predicate GoesOn(r: Read) {
    r.Frame? && r.opcode != CLOSE && !(r.opcode == PING && |r.data| >= 256)
  }

  function ActsFor(decode: Decoder, r: Read): seq<Act>
    requires GoesOn(r)
  {
    if r.opcode == PING then [Pong(EncodeControlFrame(PONG, r.data).bytes)]
    else if r.opcode == TEXT || r.opcode == BINARY then Handles(Requests(decode(r.data)))
    else []
  }

  /** The stateless meaning of a connection: each frame contributes by itself, in order, until one ends the loop. */
  function Served(decode: Decoder, frames: seq<Read>): seq<Act> {
    if frames == [] || !GoesOn(frames[0]) then [] else ActsFor(decode, frames[0]) + Served(decode, frames[1..])
  }

  /** What each kind of frame does: close ends, a ping is echoed, text and binary are requests, the rest is ignored. */
  lemma FrameKinds(decode: Decoder, opcode: bv8, data: Bytes, later: seq<Read>)
    ensures var served := Served(decode, [Frame(opcode, data)] + later);
      && (opcode == 0x8 ==> served == [])
      && (opcode == 0x9 && |data| >= 256 ==> served == [])
      && (opcode == 0x9 && |data| < 256 ==>
            exists pong :: served == [Pong(pong)] + Served(decode, later) && |pong| == |data| + 2
              && pong[0] == 0x8A && pong[2..] == data
              && (|data| <= 125 <==> Parse(pong) == (Frame(0xA, data), [])))
      && (opcode == 0x1 || opcode == 0x2 ==> served == Handles(Requests(decode(data))) + Served(decode, later))
      && (opcode !in {0x1, 0x2, 0x8, 0x9} ==> served == Served(decode, later))
  {
    hide Parse, Requests, Handles;
    var first := Frame(opcode, data);
    assert ([first] + later)[1..] == later;
    if opcode == 0x9 && |data| < 256 {
      ControlFrameRoundTripIff(PONG, data);
      var pong := EncodeControlFrame(PONG, data).bytes;
      assert Served(decode, [first] + later) == [Pong(pong)] + Served(decode, later);
    }
  }

  lemma ServedStep(decode: Decoder, bytes: Bytes)
    ensures var (r, rest) := Parse(bytes);
      Served(decode, ParseAll(bytes)) ==
      if GoesOn(r) then ActsFor(decode, r) + Served(decode, ParseAll(rest)) else []
  {
    hide Parse, ActsFor, Requests;
    var (r, rest) := Parse(bytes);
    if r.Frame? {
      assert ParseAll(bytes)[1..] == ParseAll(rest);
    }
  }

  /** What the loop does with one frame; `more` is false when the frame ends the connection or a handler raises. */
  method ServeFrame(buffered: string, frame: Read, decode: Decoder, raises: Failing)
      returns (acts: seq<Act>, rest: string, more: bool)
    requires '\n' !in buffered && AllSpace(buffered)
    ensures more <==> GoesOn(frame) && Clean(raises, ActsFor(decode, frame))
    ensures GoesOn(frame) ==> acts == Until(raises, ActsFor(decode, frame))
    ensures !GoesOn(frame) ==> acts == []
    ensures more ==> '\n' !in rest && AllSpace(rest)
  {
    hide IsSpace, Requests, Handles, AllSpace, Until;
    acts, rest, more := [], buffered, true;
    NoActs(raises);
    if !frame.Frame? || frame.opcode == CLOSE {
      more := false;
    } else if frame.opcode == PING {
      var pong := EncodeControlFrame(PONG, frame.data);
      if pong.TooLong? {
        more := false;
      } else {
        acts := [Pong(pong.bytes)];
        UntilAll(raises, acts);
      }
    } else if frame.opcode == TEXT || frame.opcode == BINARY {
      acts, rest, more := ServeText(buffered, decode(frame.data), raises);
    }
  }

  lemma NoActs(raises: Failing)
    ensures Until(raises, []) == []
  {
  }

  lemma UntilStep(raises: Failing, before: seq<Act>, now: seq<Act>, later: seq<Act>)
    requires Clean(raises, before)
    ensures Clean(raises, now) ==>
              Clean(raises, before + now) && before + (now + later) == before + Until(raises, now) + later
    ensures !Clean(raises, now) ==> Until(raises, before + (now + later)) == before + Until(raises, now)
  {
    UntilClean(raises, before, now + later);
    UntilAll(raises, now);
    if !Clean(raises, now) {
      UntilRaised(raises, now, later);
    }
  }

  /** The buffered loop acts exactly as if every frame were served on its own, up to the first handler that raises. */
  method ServeWebSocket(reader: StreamReader, decode: Decoder, raises: Failing) returns (acts: seq<Act>)
    modifies reader
    ensures acts == Until(raises, Served(decode, ParseAll(old(reader.pending))))
  {
    hide Parse, ParseAll, Served, GoesOn, ActsFor, AllSpace, Until, Clean;
    ghost var all := Served(decode, ParseAll(reader.pending));
    var buffered := "";
    acts := [];
    NothingBuffered();
    NothingRaises(raises);
    var more := true;
    while more
      invariant more ==> '\n' !in buffered && AllSpace(buffered) && Clean(raises, acts)
      invariant more ==> acts + Served(decode, ParseAll(reader.pending)) == all
      invariant !more ==> acts == Until(raises, all)
      decreases more, |reader.pending|
    {
      ParseShrinks(reader.pending);
      ServedStep(decode, reader.pending);
      var frame := reader.ReadFrame();
      ghost var before := acts;
      var now;
      now, buffered, more := ServeFrame(buffered, frame, decode, raises);
      acts := acts + now;
      if GoesOn(frame) {
        OnlyFramesGoOn(frame);
        UntilStep(raises, before, ActsFor(decode, frame), Served(decode, ParseAll(reader.pending)));
        if more {
          UntilAll(raises, ActsFor(decode, frame));
        }
      } else {
        assert before + [] == before;
        UntilAll(raises, before);
      }
    }
  }

  lemma NothingBuffered()
    ensures AllSpace("")
  {
  }

  lemma OnlyFramesGoOn(r: Read)
    requires GoesOn(r)
    ensures r.Frame?
  {
  }

  // ---------- end to end ----------

  /** A request a client can send as one line: not blank, already trimmed, without a newline. */
  ghost predicate IsRequestLine(r: string) {
    r != "" && Strip(r) == r && '\n' !in r
  }

  lemma {:induction false} NoNewline(s: string)
    requires '\n' !in s
    ensures LineEnd(s) == |s| && LineEnd(s + "\n") == |s|
  {
    LineEndAfterPrefix(s, "");
    LineEndAfterPrefix(s, "\n");
    assert s + "" == s;
  }

  lemma OneRequestPerLine(r: string)
    requires IsRequestLine(r)
    ensures Requests(r) == [r] && Requests(r + "\n") == [r]
  {
    hide Strip, LineEnd;
    NoNewline(r);
    assert (r + "\n")[..|r|] == r && (r + "\n")[|r| + 1..] == "";
    NoNewline("");
    BlankText();
  }

  lemma BlankText()
    ensures Requests("") == []
  {
  }

  /** `w` carries the request `r` as text, with or without the newline the protocol asks for. */
  ghost predicate Carries(decode: Decoder, w: Wire, r: string) {
    && w.Valid() && (Opcode(w.first) == TEXT || Opcode(w.first) == BINARY)
    && (decode(w.payload) == r || decode(w.payload) == r + "\n")
  }

  /** Requests sent one per frame, under any masks and length forms, are handled one by one, in order. */
  lemma {:induction false} ClientRequestsArrive(decode: Decoder, ws: seq<Wire>, requests: seq<string>)
    requires |ws| == |requests| && forall w :: w in ws ==> w.Valid()
    requires forall i :: 0 <= i < |ws| ==> IsRequestLine(requests[i]) && Carries(decode, ws[i], requests[i])
    ensures Served(decode, ParseAll(Concat(ws))) == Handles(requests)
  {
    hide Parse, ParseAll, Requests, Strip, Opcode, Wire.Encoding, IsRequestLine;
    StreamRoundTrip(ws);
    if ws != [] {
      ClientRequestsArrive(decode, ws[1..], requests[1..]);
      StreamRoundTrip(ws[1..]);
      OneRequestPerLine(requests[0]);
      assert Reads(ws)[1..] == Reads(ws[1..]);
      assert requests == [requests[0]] + requests[1..];
      HandlesConcat([requests[0]], requests[1..]);
    }
  }
}
