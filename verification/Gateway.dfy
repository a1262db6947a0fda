/** Connections of ios/TestHarness/mock_gateway.py that share one `GatewayState` and interleave at every await. */
module Gateway {
  import opened Utils

  type Conn = nat

  /** A `tool_data` entry; its `error` is always null. */
  datatype Tool = Tool(id: string, name: string, input: string, output: string)

  datatype Message = User(content: string) | Assistant(content: string, tool: Option<Tool>)

  function BashTool(id: string): Tool {
    Tool(id, "bash", "{\"command\": \"echo hello\"}", "hello\n")
  }

  function ToolId(id: int): string {
    "tool-" + Decimal(id)
  }

  /** The fields of `GatewayState` that requests read or write. */
  datatype Shared = Shared(
    sessionId: string,
    title: string,
    model: string,
    effort: string,
    messages: seq<Message>,
    tokenInput: nat,
    tokenOutput: nat)

  datatype Event =
    | Ack(id: int) | Done(id: int) | Interrupted | Pong(id: int)
    | ReasoningDelta(text: string) | ReasoningDone | TextDelta(text: string) | MessageEnd
    | ToolStart(tool: string) | ToolInput(delta: string) | ToolExec(tool: string) | ToolDone(tool: string)
    | Tokens(input: nat, output: nat)
    | Session(sessionId: string)
    | State(id: int, sessionId: string, messageCount: nat)
    | History(id: int, shared: Shared)
    | SoftInterruptInjected(content: string)
    | ModelChanged(id: int, model: string) | ModelsUpdated(model: string)
    | EffortChanged(id: int, effort: string)
    | CompactResult(id: int)
    | Renamed(sessionId: string, title: string)
    | Notification | Compaction

  /** What runs between two awaits: an effect on the shared state and the event sent from it. */
  datatype Action =
    | Emit(event: Event)
    | AddTokens(text: string)
    | AppendTurn(text: string, id: int)
    | EmitSession
    | EmitState(id: int)
    | EmitHistory(id: int)
    | SetModel(id: int, model: Option<string>)
    | EmitModels
    | SetEffort(id: int, effort: Option<string>)
    | Rename(title: Option<string>)
    | Resume(sessionId: Option<string>)
    | Clear(id: int)

  const ANSWER: string :=
    "Done. Here is a code block:\n\n" +
    "```python\nprint('hello from mock gateway')\n```\n\n" +
    "And a **bold** word plus `inline code`."

  /** `msg.get("title") or "Untitled"`: an empty title counts as missing. */
  function TitleOr(title: Option<string>): string {
    if title.Some? && title.value != "" then title.value else "Untitled"
  }

  function Perform(s: Shared, a: Action): (Shared, Event) {
    match a
    case Emit(e) => (s, e)
    case AddTokens(text) =>
      var t := s.(tokenInput := s.tokenInput + 120 + |text|, tokenOutput := s.tokenOutput + 240);
      (t, Tokens(t.tokenInput, t.tokenOutput))
    case AppendTurn(text, id) =>
      (s.(messages := s.messages + [User(text), Assistant(ANSWER, Some(BashTool(ToolId(id))))]), Done(id))
    case EmitSession => (s, Session(s.sessionId))
    case EmitState(id) => (s, State(id, s.sessionId, |s.messages|))
    case EmitHistory(id) => (s, History(id, s))
    case SetModel(id, m) => var t := s.(model := GetOr(m, s.model)); (t, ModelChanged(id, t.model))
    case EmitModels => (s, ModelsUpdated(s.model))
    case SetEffort(id, e) => var t := s.(effort := GetOr(e, s.effort)); (t, EffortChanged(id, t.effort))
    case Rename(title) => var t := s.(title := TitleOr(title)); (t, Renamed(t.sessionId, t.title))
    case Resume(sid) =>
      var t := s.(sessionId := GetOr(sid, s.sessionId), messages := []);
      (t, Session(t.sessionId))
    case Clear(id) => var t := s.(messages := []); (t, History(id, t))
  }

  /** The object the handlers assign to, one action at a time. */
  class GatewayState {
    var sessionId: string
    var title: string
    var model: string
    var effort: string
    var messages: seq<Message>
    var tokenInput: nat
    var tokenOutput: nat

    ghost function Value(): Shared
      reads this
    {
      Shared(sessionId, title, model, effort, messages, tokenInput, tokenOutput)
    }

    constructor ()
      ensures Value() == InitialState([])
    {
      sessionId, title, model := "mock-session-0001", "Mock session", FIRST_MODEL;
      messages, tokenInput, tokenOutput, effort := [], 0, 0, "high";
    }

    method Run(a: Action) returns (e: Event)
      modifies this
      ensures (Value(), e) == Perform(old(Value()), a)
    {
      match a {
        case Emit(event) =>
          e := event;
        case AddTokens(text) =>
          tokenInput := tokenInput + 120 + |text|;
          tokenOutput := tokenOutput + 240;
          e := Tokens(tokenInput, tokenOutput);
        case AppendTurn(text, id) =>
          messages := messages + [User(text)];
          messages := messages + [Assistant(ANSWER, Some(BashTool(ToolId(id))))];
          assert messages == old(messages) + [User(text), Assistant(ANSWER, Some(BashTool(ToolId(id))))];
          e := Done(id);
        case EmitSession =>
          e := Session(sessionId);
        case EmitState(id) =>
          e := State(id, sessionId, |messages|);
        case EmitHistory(id) =>
          e := Payload(id);
        case SetModel(id, m) =>
          model := GetOr(m, model);
          e := ModelChanged(id, model);
        case EmitModels =>
          e := ModelsUpdated(model);
        case SetEffort(id, requested) =>
          effort := GetOr(requested, effort);
          e := EffortChanged(id, effort);
        case Rename(t) =>
          title := TitleOr(t);
          e := Renamed(sessionId, title);
        case Resume(sid) =>
          sessionId := GetOr(sid, sessionId);
          messages := [];
          e := Session(sessionId);
        case Clear(id) =>
          messages := [];
          e := Payload(id);
      }
    }

    function Payload(id: int): (e: Event)
      reads this
      ensures e == History(id, Value())
    {
      History(id, Shared(sessionId, title, model, effort, messages, tokenInput, tokenOutput))
    }
  }

  const FIRST_MODEL: string := "claude-api:claude-fable-5"

  function InitialState(seeded: seq<Message>): Shared {
    Shared("mock-session-0001", "Mock session", FIRST_MODEL, "high", seeded, 0, 0)
  }

  function Question(n: nat): (m: Message)
    ensures m.User?
  {
    User("Question number " + Decimal(n) + " about the codebase?")
  }

  function Answer(n: nat): (m: Message)
    ensures m.Assistant?
  {
    Assistant(
      "Answer " + Decimal(n) + ": here is a reasonably detailed paragraph that " +
      "wraps across multiple lines to simulate a real assistant reply " +
      "with enough text to fill vertical space and exercise scrolling.",
      if n % 2 == 1 then Some(BashTool("t1")) else None)
  }

  function LongTurns(n: nat): seq<Message> {
    if n == 0 then [] else LongTurns(n - 1) + [Question(n), Answer(n)]
  }

  function CodeAnswer(): string {
    "Sure:\n\n```python\ndef fib(n):\n    a, b = 0, 1\n    for _ in range(n):\n" +
    "        a, b = b, a + b\n    return a\n```\n\nThat is iterative and O(n)."
  }

  /** The transcript a scenario starts from; an unknown name is the empty one. */
  function ScenarioMessages(name: string): seq<Message> {
    if name == "short" then
      [User("hi"), Assistant("Hello! How can I help?", None)]
    else if name == "tool" then
      [User("run echo hello"), Assistant("Done. Output above.", Some(BashTool("t1")))]
    else if name == "long" then
      LongTurns(6)
    else if name == "code" then
      [User("show me a python snippet"), Assistant(CodeAnswer(), None)]
    else
      []
  }

  // ---------- what each request runs ----------

  datatype Request =
    | Subscribe(id: int) | GetHistory(id: int) | Send(id: int, content: string)
    | SoftInterrupt(id: int, content: string)
    | Cancel(id: int) | Ping(id: int) | ChooseModel(id: int, model: Option<string>)
    | ChooseEffort(id: int, effort: Option<string>) | Compact(id: int) | RenameSession(title: Option<string>)
    | ResumeSession(id: int, sessionId: Option<string>) | ClearSession(id: int) | CancelSoftInterrupts(id: int)
    | Notify | Unknown

  function ChunkText(text: string, size: nat): seq<string>
    requires size > 0
  {
    if |text| == 0 then [] else if |text| <= size then [text] else [text[..size]] + ChunkText(text[size..], size)
  }

  function Deltas(chunks: seq<string>): seq<Action> {
    seq(|chunks|, i requires 0 <= i < |chunks| => Emit(TextDelta(chunks[i])))
  }

  function Intro(text: string): string {
    "You said: " + text + "\n\nRunning a quick tool to demonstrate.\n\n"
  }

  function ToolCall(id: int): seq<Action> {
    [ Emit(ToolStart(ToolId(id))),
      Emit(ToolInput("{\"command\":")), Emit(ToolInput(" \"echo ")), Emit(ToolInput("hello\"}")),
      Emit(ToolExec(ToolId(id))), Emit(ToolDone(ToolId(id))) ]
  }

  function StreamHead(id: int): seq<Action> {
    [ Emit(Ack(id)), Emit(ReasoningDelta("Looking at ")), Emit(ReasoningDelta("the request")),
      Emit(ReasoningDelta("...")), Emit(ReasoningDone) ]
  }

  /** Everything `stream_response` sends before it touches the shared state. */
  function StreamBody(text: string, id: int): seq<Action> {
    StreamHead(id) + Deltas(ChunkText(Intro(text), 6)) + ToolCall(id) + Deltas(ChunkText(ANSWER, 8))
    + [Emit(MessageEnd)]
  }

  function StreamProgram(text: string, id: int): seq<Action> {
    StreamBody(text, id) + [AddTokens(text), AppendTurn(text, id)]
  }

  function Program(r: Request): seq<Action> {
    match r
    case Subscribe(id) => [Emit(Ack(id)), EmitSession, EmitState(id)]
    case GetHistory(id) => [EmitHistory(id)]
    case Send(id, content) => StreamProgram(content, id)
    case SoftInterrupt(id, content) =>
      [Emit(Ack(id)), Emit(SoftInterruptInjected(content))] + StreamProgram(content, id)
    case Cancel(id) => [Emit(Interrupted), Emit(Done(id))]
    case Ping(id) => [Emit(Pong(id))]
    case ChooseModel(id, m) => [SetModel(id, m), EmitModels]
    case ChooseEffort(id, e) => [SetEffort(id, e)]
    case Compact(id) => [Emit(CompactResult(id))]
    case RenameSession(t) => [Rename(t)]
    case ResumeSession(id, sid) => [Resume(sid), EmitHistory(id)]
    case ClearSession(id) => [Clear(id)]
    case CancelSoftInterrupts(id) => [Emit(Ack(id))]
    case Notify => [Emit(Notification), Emit(Compaction)]
    case Unknown => []
  }

  // ---------- the interleaving ----------

  /** `todo` is what each open connection still has to run of its request; the two logs record what was run and sent. */
  datatype System = System(
    shared: Shared,
    todo: map<Conn, seq<Action>>,
    closed: set<Conn>,
    performed: seq<(Conn, Action)>,
    sent: seq<(Conn, Event)>)

  datatype Step = Connect(conn: Conn) | Receive(conn: Conn, request: Request) | Advance(conn: Conn) | Drop(conn: Conn)

  predicate Enabled(s: System, step: Step) {
    match step
    case Connect(c) => c !in s.todo && c !in s.closed
    case Receive(c, _) => c in s.todo && s.todo[c] == []
    case Advance(c) => c in s.todo && s.todo[c] != []
    case Drop(c) => c in s.todo
  }

  function Apply(s: System, step: Step): System
    requires Enabled(s, step)
  {
    match step
    case Connect(c) => s.(todo := s.todo[c := []])
    case Receive(c, r) => s.(todo := s.todo[c := Program(r)])
    case Advance(c) =>
      var a := s.todo[c][0];
      var (shared, event) := Perform(s.shared, a);
      System(shared, s.todo[c := s.todo[c][1..]], s.closed, s.performed + [(c, a)], s.sent + [(c, event)])
    case Drop(c) => s.(todo := s.todo - {c}, closed := s.closed + {c})
  }

  function Start(shared: Shared): System {
    System(shared, map[], {}, [], [])
  }

  ghost predicate IsRun(s: System, steps: seq<Step>)
    decreases |steps|
  {
    steps == [] || (Enabled(s, steps[0]) && IsRun(Apply(s, steps[0]), steps[1..]))
  }

  ghost function Final(s: System, steps: seq<Step>): System
    requires IsRun(s, steps)
    decreases |steps|
  {
    if steps == [] then s else Final(Apply(s, steps[0]), steps[1..])
  }

  // ---------- the transcript ----------

  /** User and assistant turns strictly alternate and the last user turn has been answered. */
  ghost predicate Alternates(messages: seq<Message>) {
    |messages| % 2 == 0 && forall i :: 0 <= i < |messages| ==> (messages[i].User? <==> i % 2 == 0)
  }

  ghost predicate EventShowsAlternation(e: Event) {
    && (e.History? ==> Alternates(e.shared.messages))
    && (e.State? ==> e.messageCount % 2 == 0)
  }

  ghost predicate TranscriptOk(s: System) {
    Alternates(s.shared.messages) && forall i :: 0 <= i < |s.sent| ==> EventShowsAlternation(s.sent[i].1)
  }

  /** The event says something about the shared state. */
  predicate Reports(e: Event) {
    || e.Tokens? || e.Session? || e.State? || e.History? || e.ModelChanged? || e.ModelsUpdated? || e.EffortChanged?
    || e.Renamed?
  }

  ghost predicate Harmless(a: Action) {
    a.Emit? ==> !Reports(a.event)
  }

  /** Constant events never claim anything about the shared state. */
  ghost predicate ProgramsHarmless(s: System) {
    forall c, i :: c in s.todo && 0 <= i < |s.todo[c]| ==> Harmless(s.todo[c][i])
  }

  /** Nothing but constant events that report none of the shared fields. */
  ghost predicate OnlyConstants(actions: seq<Action>) {
    forall i :: 0 <= i < |actions| ==> actions[i].Emit? && Harmless(actions[i])
  }

  lemma ConstantsConcat(a: seq<Action>, b: seq<Action>)
    requires OnlyConstants(a) && OnlyConstants(b)
    ensures OnlyConstants(a + b)
  {
    hide Harmless;
  }

  lemma DeltasConstant(chunks: seq<string>)
    ensures OnlyConstants(Deltas(chunks))
  {
  }

  lemma ToolCallConstant(id: int)
    ensures OnlyConstants(ToolCall(id))
  {
    hide ToolId;
  }

  lemma HeadConstant(id: int)
    ensures OnlyConstants(StreamHead(id))
  {
  }

  /** Up to its token update a stream sends constant events only. */
  lemma BodyConstant(text: string, id: int)
    ensures OnlyConstants(StreamBody(text, id))
  {
    hide OnlyConstants, Deltas, ChunkText, StreamHead, ToolCall, Intro;
    var b, d, e := Deltas(ChunkText(Intro(text), 6)), Deltas(ChunkText(ANSWER, 8)), [Emit(MessageEnd)];
    HeadConstant(id);
    DeltasConstant(ChunkText(Intro(text), 6));
    ToolCallConstant(id);
    DeltasConstant(ChunkText(ANSWER, 8));
    EndConstant();
    ConstantsConcat(StreamHead(id), b);
    ConstantsConcat(StreamHead(id) + b, ToolCall(id));
    ConstantsConcat(StreamHead(id) + b + ToolCall(id), d);
    ConstantsConcat(StreamHead(id) + b + ToolCall(id) + d, e);
  }

  lemma EndConstant()
    ensures OnlyConstants([Emit(MessageEnd)])
  {
  }

  lemma StreamHarmless(text: string, id: int)
    ensures forall i :: 0 <= i < |StreamProgram(text, id)| ==> Harmless(StreamProgram(text, id)[i])
  {
    hide StreamBody;
    BodyConstant(text, id);
  }

  lemma ProgramHarmless(r: Request)
    ensures forall i :: 0 <= i < |Program(r)| ==> Harmless(Program(r)[i])
  {
    hide StreamProgram;
    if r.Send? || r.SoftInterrupt? {
      StreamHarmless(r.content, r.id);
    }
  }

  lemma PerformKeepsTranscript(s: Shared, a: Action)
    requires Alternates(s.messages) && Harmless(a)
    ensures Alternates(Perform(s, a).0.messages) && EventShowsAlternation(Perform(s, a).1)
  {
  }

  lemma StepKeepsTranscript(s: System, step: Step)
    requires TranscriptOk(s) && ProgramsHarmless(s) && Enabled(s, step)
    ensures TranscriptOk(Apply(s, step)) && ProgramsHarmless(Apply(s, step))
  {
    hide Alternates, EventShowsAlternation, Harmless, Program, Perform, ProgramsHarmless;
    StepKeepsHarmless(s, step);
    if step.Advance? {
      assert Harmless(s.todo[step.conn][0]) by {
        FirstHarmless(s, step.conn);
      }
      PerformKeepsTranscript(s.shared, s.todo[step.conn][0]);
    }
  }

  /** Under every interleaving the transcript alternates, and so does every history any client is ever sent. */
  lemma {:induction false} TranscriptAlwaysAlternates(s: System, steps: seq<Step>)
    requires TranscriptOk(s) && ProgramsHarmless(s) && IsRun(s, steps)
    ensures TranscriptOk(Final(s, steps))
    decreases |steps|
  {
    if steps != [] {
      StepKeepsTranscript(s, steps[0]);
      TranscriptAlwaysAlternates(Apply(s, steps[0]), steps[1..]);
    }
  }

  // ---------- the token counters ----------

  /** The texts whose stream got past its token update, in order. */
  ghost function Billed(performed: seq<(Conn, Action)>): seq<string> {
    if performed == [] then [] else
    var a := performed[|performed| - 1].1;
    Billed(performed[..|performed| - 1]) + if a.AddTokens? then [a.text] else []
  }

  ghost function InputFor(texts: seq<string>): nat {
    if texts == [] then 0 else InputFor(texts[..|texts| - 1]) + 120 + |texts[|texts| - 1]|
  }

  ghost function TokenReports(sent: seq<(Conn, Event)>): seq<(nat, nat)> {
    if sent == [] then [] else
    var e := sent[|sent| - 1].1;
    TokenReports(sent[..|sent| - 1]) + if e.Tokens? then [(e.input, e.output)] else []
  }

  ghost function RunningTotals(texts: seq<string>): seq<(nat, nat)> {
    if texts == [] then [] else RunningTotals(texts[..|texts| - 1]) + [(InputFor(texts), 240 * |texts|)]
  }

  ghost predicate TokensOk(s: System) {
    var texts := Billed(s.performed);
    && s.shared.tokenInput == InputFor(texts)
    && s.shared.tokenOutput == 240 * |texts|
    && TokenReports(s.sent) == RunningTotals(texts)
  }

  lemma BilledNext(performed: seq<(Conn, Action)>, c: Conn, a: Action)
    ensures Billed(performed + [(c, a)]) == Billed(performed) + if a.AddTokens? then [a.text] else []
  {
    assert (performed + [(c, a)])[..|performed|] == performed;
  }

  lemma ReportsNext(sent: seq<(Conn, Event)>, c: Conn, e: Event)
    ensures TokenReports(sent + [(c, e)]) == TokenReports(sent) + if e.Tokens? then [(e.input, e.output)] else []
  {
    assert (sent + [(c, e)])[..|sent|] == sent;
  }

  lemma InputForNext(texts: seq<string>, text: string)
    ensures InputFor(texts + [text]) == InputFor(texts) + 120 + |text|
  {
    assert (texts + [text])[..|texts|] == texts;
  }

  lemma TotalsNext(texts: seq<string>, text: string)
    ensures RunningTotals(texts + [text])
            == RunningTotals(texts) + [(InputFor(texts + [text]), 240 * |texts + [text]|)]
  {
    hide InputFor;
    assert (texts + [text])[..|texts|] == texts;
  }

  lemma PerformOnTokens(s: Shared, a: Action)
    requires Harmless(a)
    ensures var (t, e) := Perform(s, a);
      if a.AddTokens? then
        && t.tokenInput == s.tokenInput + 120 + |a.text| && t.tokenOutput == s.tokenOutput + 240
        && e == Tokens(t.tokenInput, t.tokenOutput)
      else
        t.tokenInput == s.tokenInput && t.tokenOutput == s.tokenOutput && !e.Tokens?
  {
  }

  lemma AdvanceKeepsTokens(s: System, c: Conn)
    requires TokensOk(s) && Enabled(s, Advance(c)) && Harmless(s.todo[c][0])
    ensures TokensOk(Apply(s, Advance(c)))
  {
    hide Perform, Billed, InputFor, TokenReports, RunningTotals, Harmless;
    var a := s.todo[c][0];
    var texts := Billed(s.performed);
    var t := Apply(s, Advance(c));
    assert t.performed == s.performed + [(c, a)] && t.sent == s.sent + [(c, Perform(s.shared, a).1)];
    PerformOnTokens(s.shared, a);
    BilledNext(s.performed, c, a);
    ReportsNext(s.sent, c, Perform(s.shared, a).1);
    if a.AddTokens? {
      InputForNext(texts, a.text);
      TotalsNext(texts, a.text);
    } else {
      assert Billed(t.performed) == texts && TokenReports(t.sent) == TokenReports(s.sent);
    }
  }

  lemma FirstHarmless(s: System, c: Conn)
    requires ProgramsHarmless(s) && c in s.todo && s.todo[c] != []
    ensures Harmless(s.todo[c][0])
  {
  }

  lemma StepKeepsHarmless(s: System, step: Step)
    requires ProgramsHarmless(s) && Enabled(s, step)
    ensures ProgramsHarmless(Apply(s, step))
  {
    hide Program, Perform, Harmless;
    if step.Receive? {
      ProgramHarmless(step.request);
    }
  }

  lemma StepKeepsTokens(s: System, step: Step)
    requires TokensOk(s) && ProgramsHarmless(s) && Enabled(s, step)
    ensures TokensOk(Apply(s, step)) && ProgramsHarmless(Apply(s, step))
  {
    hide Program, Perform, Harmless, Billed, InputFor, TokenReports, RunningTotals;
    StepKeepsHarmless(s, step);
    if step.Advance? {
      AdvanceKeepsTokens(s, step.conn);
    }
  }

  /** The counters are the bill of the streams past their update, and the reports sent are its running totals. */
  lemma {:induction false} TokensAlwaysAddUp(s: System, steps: seq<Step>)
    requires TokensOk(s) && ProgramsHarmless(s) && IsRun(s, steps)
    ensures TokensOk(Final(s, steps))
    decreases |steps|
  {
    if steps != [] {
      StepKeepsTokens(s, steps[0]);
      TokensAlwaysAddUp(Apply(s, steps[0]), steps[1..]);
    }
  }

  // ---------- every connection runs its own requests, in order ----------

  ghost function ActionsOf(c: Conn, performed: seq<(Conn, Action)>): seq<Action> {
    if performed == [] then [] else
    ActionsOf(c, performed[..|performed| - 1])
    + if performed[|performed| - 1].0 == c then [performed[|performed| - 1].1] else []
  }

  ghost function Remaining(s: System, c: Conn): seq<Action> {
    if c in s.todo then s.todo[c] else []
  }

  /** The programs of the requests `c` sent during `steps`, one after the other. */
  ghost function Requested(c: Conn, steps: seq<Step>): seq<Action> {
    if steps == [] then [] else
    (if steps[0].Receive? && steps[0].conn == c then Program(steps[0].request) else []) + Requested(c, steps[1..])
  }

  ghost predicate Separate(s: System) {
    s.closed !! s.todo.Keys
  }

  lemma StepOnLedger(s: System, step: Step, c: Conn)
    requires Separate(s) && Enabled(s, step)
    ensures Separate(Apply(s, step))
    ensures step != Drop(c) ==>
              ActionsOf(c, Apply(s, step).performed) + Remaining(Apply(s, step), c)
              == ActionsOf(c, s.performed) + Remaining(s, c) + Requested(c, [step])
    ensures step == Drop(c) ==> Apply(s, step).performed == s.performed
  {
    hide Program, Perform;
    var t := Apply(s, step);
    assert Requested(c, [step]) == if step.Receive? && step.conn == c then Program(step.request) else [];
    if step.Advance? {
      assert t.performed[..|s.performed|] == s.performed;
      if step.conn == c {
        assert s.todo[c] == [s.todo[c][0]] + s.todo[c][1..];
      }
    }
  }

  lemma {:induction false} ClosedStaysClosed(s: System, steps: seq<Step>, c: Conn)
    requires Separate(s) && c in s.closed && IsRun(s, steps)
    ensures c !in Final(s, steps).todo && Requested(c, steps) == []
    ensures ActionsOf(c, Final(s, steps).performed) == ActionsOf(c, s.performed)
    decreases |steps|
  {
    hide Program, Perform;
    if steps != [] {
      StepOnLedger(s, steps[0], c);
      var t := Apply(s, steps[0]);
      if steps[0].Advance? {
        assert t.performed[..|s.performed|] == s.performed;
      }
      ClosedStaysClosed(t, steps[1..], c);
    }
  }

  lemma NothingRequested(c: Conn)
    ensures Requested(c, []) == []
  {
  }

  lemma RequestedNext(c: Conn, steps: seq<Step>)
    requires steps != []
    ensures Requested(c, steps) == Requested(c, [steps[0]]) + Requested(c, steps[1..])
  {
    hide Program;
    assert [steps[0]][1..] == [];
  }

  lemma LedgerShifts(
      run: seq<Action>, left: seq<Action>, first: seq<Action>, rest: seq<Action>, run': seq<Action>, left': seq<Action>)
    ensures run' + left' == run + left + first ==> run' + left' + rest == run + left + (first + rest)
    ensures run' == run ==> run' <= run + left + (first + rest)
  {
  }

  /**
   * What a connection has run, followed by what it still has to run, is the sequence of its own requests:
   * other connections never reorder, drop or insert anything. A dropped connection has run a prefix.
   */
  lemma {:induction false} ConnectionRunsItsRequests(s: System, steps: seq<Step>, c: Conn)
    requires Separate(s) && IsRun(s, steps)
    ensures var f := Final(s, steps);
      var all := ActionsOf(c, s.performed) + Remaining(s, c) + Requested(c, steps);
      && (c in f.todo ==> ActionsOf(c, f.performed) + f.todo[c] == all)
      && ActionsOf(c, f.performed) <= all
    decreases |steps|
  {
    hide Program, Perform, Enabled, Apply, Requested, ActionsOf;
    if steps == [] {
      NothingRequested(c);
    } else {
      StepOnLedger(s, steps[0], c);
      var t := Apply(s, steps[0]);
      RequestedNext(c, steps);
      LedgerShifts(
        ActionsOf(c, s.performed), Remaining(s, c), Requested(c, [steps[0]]), Requested(c, steps[1..]),
        ActionsOf(c, t.performed), Remaining(t, c));
      if steps[0] == Drop(c) {
        DropCloses(s, c);
        ClosedStaysClosed(t, steps[1..], c);
      } else {
        ConnectionRunsItsRequests(t, steps[1..], c);
      }
    }
  }

  lemma DropCloses(s: System, c: Conn)
    requires Enabled(s, Drop(c))
    ensures c in Apply(s, Drop(c)).closed
  {
  }

  // ---------- consequences for one client ----------

  /** Every recorded turn comes right after the token update for the same text. */
  ghost predicate BilledFirst(actions: seq<Action>) {
    forall k :: 0 <= k < |actions| && actions[k].AppendTurn? ==> k > 0 && actions[k - 1] == AddTokens(actions[k].text)
  }

  lemma BilledFirstConcat(a: seq<Action>, b: seq<Action>)
    requires BilledFirst(a) && BilledFirst(b)
    ensures BilledFirst(a + b)
  {
  }

  lemma StreamBilledFirst(text: string, id: int)
    ensures BilledFirst(StreamProgram(text, id))
  {
    hide StreamBody;
    BodyConstant(text, id);
    BilledFirstConcat(StreamBody(text, id), [AddTokens(text), AppendTurn(text, id)]);
  }

  lemma ProgramBilledFirst(r: Request)
    ensures BilledFirst(Program(r))
  {
    hide StreamProgram;
    if r.Send? || r.SoftInterrupt? {
      StreamBilledFirst(r.content, r.id);
    }
  }

  lemma {:induction false} RequestedBilledFirst(c: Conn, steps: seq<Step>)
    ensures BilledFirst(Requested(c, steps))
  {
    hide Program;
    if steps != [] {
      if steps[0].Receive? {
        ProgramBilledFirst(steps[0].request);
      }
      RequestedBilledFirst(c, steps[1..]);
    }
  }

  /** In every run, also one cut short, a connection records a turn only right after billing it. */
  lemma TurnsAreBilledBeforeRecorded(shared: Shared, steps: seq<Step>, c: Conn)
    requires IsRun(Start(shared), steps)
    ensures BilledFirst(ActionsOf(c, Final(Start(shared), steps).performed))
  {
    hide Program, Perform, Apply, Enabled;
    ConnectionRunsItsRequests(Start(shared), steps, c);
    RequestedBilledFirst(c, steps);
    assert ActionsOf(c, []) + [] + Requested(c, steps) == Requested(c, steps);
  }

  ghost function Text(e: Event): string {
    if e.TextDelta? then e.text else ""
  }

  ghost function TextSent(c: Conn, sent: seq<(Conn, Event)>): string {
    if sent == [] then "" else
    TextSent(c, sent[..|sent| - 1]) + if sent[|sent| - 1].0 == c then Text(sent[|sent| - 1].1) else ""
  }

  ghost function TextOf(actions: seq<Action>): string {
    if actions == [] then "" else
    TextOf(actions[..|actions| - 1])
    + if actions[|actions| - 1].Emit? then Text(actions[|actions| - 1].event) else ""
  }

  lemma {:induction false} TextOfConcat(a: seq<Action>, b: seq<Action>)
    ensures TextOf(a + b) == TextOf(a) + TextOf(b)
    decreases |b|
  {
    if b == [] {
      assert a + b == a;
    } else {
      TextOfConcat(a, b[..|b| - 1]);
      assert (a + b)[..|a + b| - 1] == a + b[..|b| - 1];
    }
  }

  lemma FirstDelta(chunk: string, rest: seq<string>)
    ensures Deltas([chunk] + rest) == [Emit(TextDelta(chunk))] + Deltas(rest)
  {
  }

  lemma OneDelta(chunk: string)
    ensures TextOf([Emit(TextDelta(chunk))]) == chunk
  {
    assert [Emit(TextDelta(chunk))][..0] == [];
  }

  lemma DeltasCons(chunk: string, rest: seq<string>)
    ensures TextOf(Deltas([chunk] + rest)) == chunk + TextOf(Deltas(rest))
  {
    hide TextOf, Deltas;
    FirstDelta(chunk, rest);
    TextOfConcat([Emit(TextDelta(chunk))], Deltas(rest));
    OneDelta(chunk);
  }

  /** No chunk is empty, and all but the last have the full size. */
  lemma {:induction false} ChunkSizes(text: string, size: nat)
    requires size > 0
    ensures forall i :: 0 <= i < |ChunkText(text, size)| ==> 1 <= |ChunkText(text, size)[i]| <= size
    ensures forall i :: 0 <= i < |ChunkText(text, size)| - 1 ==> |ChunkText(text, size)[i]| == size
  {
    if |text| > size {
      ChunkSizes(text[size..], size);
    }
  }

  lemma {:induction false} ChunksJoin(text: string, size: nat)
    requires size > 0
    ensures TextOf(Deltas(ChunkText(text, size))) == text
  {
    hide Deltas, TextOf;
    if |text| == 0 {
      NoDeltas();
    } else if |text| <= size {
      DeltasCons(text, []);
      assert [text] + [] == [text];
      NoDeltas();
    } else {
      DeltasCons(text[..size], ChunkText(text[size..], size));
      ChunksJoin(text[size..], size);
    }
  }

  lemma NoDeltas()
    ensures TextOf(Deltas([])) == ""
  {
  }

  /** What one request's reply reads as, put together from its deltas. */
  function Reply(r: Request): string {
    if r.Send? || r.SoftInterrupt? then Intro(r.content) + ANSWER else ""
  }

  lemma {:induction false} NoDeltaNoText(actions: seq<Action>)
    requires forall i :: 0 <= i < |actions| && actions[i].Emit? ==> !actions[i].event.TextDelta?
    ensures TextOf(actions) == ""
  {
    if actions != [] {
      NoDeltaNoText(actions[..|actions| - 1]);
    }
  }

  lemma TextOfParts(a: seq<Action>, b: seq<Action>, c: seq<Action>, d: seq<Action>, e: seq<Action>, f: seq<Action>)
    ensures TextOf(a + b + c + d + e + f) == TextOf(a) + TextOf(b) + TextOf(c) + TextOf(d) + TextOf(e) + TextOf(f)
  {
    hide TextOf;
    TextOfConcat(a, b);
    TextOfConcat(a + b, c);
    TextOfConcat(a + b + c, d);
    TextOfConcat(a + b + c + d, e);
    TextOfConcat(a + b + c + d + e, f);
  }

  lemma HeadHasNoText(id: int)
    ensures TextOf(StreamHead(id)) == ""
  {
    hide TextOf;
    NoDeltaNoText(StreamHead(id));
  }

  lemma ToolCallHasNoText(id: int)
    ensures TextOf(ToolCall(id)) == ""
  {
    hide TextOf, ToolId;
    NoDeltaNoText(ToolCall(id));
  }

  lemma StreamText(text: string, id: int)
    ensures TextOf(StreamProgram(text, id)) == Intro(text) + ANSWER
  {
    hide Deltas, ChunkText, TextOf, Intro, StreamHead, ToolCall, ANSWER;
    var b, d := Deltas(ChunkText(Intro(text), 6)), Deltas(ChunkText(ANSWER, 8));
    var e, f := [Emit(MessageEnd)], [AddTokens(text), AppendTurn(text, id)];
    HeadHasNoText(id);
    ToolCallHasNoText(id);
    NoDeltaNoText(e);
    NoDeltaNoText(f);
    ChunksJoin(Intro(text), 6);
    ChunksJoin(ANSWER, 8);
    TextOfParts(StreamHead(id), b, ToolCall(id), d, e, f);
  }

  lemma ProgramText(r: Request)
    ensures TextOf(Program(r)) == Reply(r)
  {
    hide StreamProgram, TextOf, Intro;
    if r.Send? {
      StreamText(r.content, r.id);
    } else if r.SoftInterrupt? {
      var head := [Emit(Ack(r.id)), Emit(SoftInterruptInjected(r.content))];
      NoDeltaNoText(head);
      StreamText(r.content, r.id);
      TextOfConcat(head, StreamProgram(r.content, r.id));
    } else {
      NoDeltaNoText(Program(r));
    }
  }

  ghost function Replies(c: Conn, steps: seq<Step>): string {
    if steps == [] then "" else
    (if steps[0].Receive? && steps[0].conn == c then Reply(steps[0].request) else "") + Replies(c, steps[1..])
  }

  lemma {:induction false} RequestedText(c: Conn, steps: seq<Step>)
    ensures TextOf(Requested(c, steps)) == Replies(c, steps)
  {
    hide Program, Reply;
    if steps != [] {
      RequestedText(c, steps[1..]);
      if steps[0].Receive? && steps[0].conn == c {
        ProgramText(steps[0].request);
        TextOfConcat(Program(steps[0].request), Requested(c, steps[1..]));
      } else {
        assert Requested(c, steps) == Requested(c, steps[1..]);
      }
    }
  }

  lemma PerformOnText(s: Shared, a: Action)
    ensures TextOf([a]) == Text(Perform(s, a).1)
  {
    hide ToolId, BashTool;
    assert [a][..0] == [];
  }

  lemma SentNext(c: Conn, sent: seq<(Conn, Event)>, d: Conn, e: Event)
    ensures TextSent(c, sent + [(d, e)]) == TextSent(c, sent) + if d == c then Text(e) else ""
  {
    hide Text;
    assert (sent + [(d, e)])[..|sent|] == sent;
  }

  lemma ActionsNext(c: Conn, performed: seq<(Conn, Action)>, d: Conn, a: Action)
    ensures ActionsOf(c, performed + [(d, a)]) == ActionsOf(c, performed) + if d == c then [a] else []
  {
    assert (performed + [(d, a)])[..|performed|] == performed;
  }

  lemma StepKeepsText(s: System, step: Step, c: Conn)
    requires TextSent(c, s.sent) == TextOf(ActionsOf(c, s.performed)) && Enabled(s, step)
    ensures TextSent(c, Apply(s, step).sent) == TextOf(ActionsOf(c, Apply(s, step).performed))
  {
    hide Program, Perform, TextSent, ActionsOf, TextOf, Text;
    if step.Advance? {
      var t := Apply(s, step);
      var a := s.todo[step.conn][0];
      var e := Perform(s.shared, a).1;
      assert t.performed == s.performed + [(step.conn, a)] && t.sent == s.sent + [(step.conn, e)];
      PerformOnText(s.shared, a);
      SentNext(c, s.sent, step.conn, e);
      ActionsNext(c, s.performed, step.conn, a);
      if step.conn == c {
        TextOfConcat(ActionsOf(c, s.performed), [a]);
      } else {
        assert ActionsOf(c, s.performed) + [] == ActionsOf(c, s.performed);
      }
    }
  }

  lemma {:induction false} RunKeepsText(s: System, steps: seq<Step>, c: Conn)
    requires TextSent(c, s.sent) == TextOf(ActionsOf(c, s.performed)) && IsRun(s, steps)
    ensures TextSent(c, Final(s, steps).sent) == TextOf(ActionsOf(c, Final(s, steps).performed))
    decreases |steps|
  {
    hide Apply, Enabled, TextSent, TextOf, ActionsOf;
    if steps != [] {
      StepKeepsText(s, steps[0], c);
      RunKeepsText(Apply(s, steps[0]), steps[1..], c);
    }
  }

  /** An idle open connection has received exactly the full replies to its own messages, whatever the others did. */
  lemma ClientsReceiveTheirReplies(shared: Shared, steps: seq<Step>, c: Conn)
    requires IsRun(Start(shared), steps)
    requires c in Final(Start(shared), steps).todo && Final(Start(shared), steps).todo[c] == []
    ensures TextSent(c, Final(Start(shared), steps).sent) == Replies(c, steps)
  {
    hide Program, Perform, Apply, Enabled;
    ConnectionRunsItsRequests(Start(shared), steps, c);
    RunKeepsText(Start(shared), steps, c);
    RequestedText(c, steps);
    var done := ActionsOf(c, Final(Start(shared), steps).performed);
    assert done + [] == done;
    assert ActionsOf(c, []) + [] + Requested(c, steps) == Requested(c, steps);
  }

  // ---------- the transcript is the completed turns since the last reset ----------

  function Resets(a: Action): bool {
    a.Resume? || a.Clear?
  }

  ghost function TurnsSinceReset(performed: seq<(Conn, Action)>): seq<(string, int)> {
    if performed == [] then [] else
    var a := performed[|performed| - 1].1;
    if Resets(a) then [] else
    TurnsSinceReset(performed[..|performed| - 1]) + if a.AppendTurn? then [(a.text, a.id)] else []
  }

  ghost function Transcript(turns: seq<(string, int)>): seq<Message> {
    if turns == [] then [] else
    var t := turns[|turns| - 1];
    Transcript(turns[..|turns| - 1]) + [User(t.0), Assistant(ANSWER, Some(BashTool(ToolId(t.1))))]
  }

  lemma TurnsNext(performed: seq<(Conn, Action)>, c: Conn, a: Action)
    ensures TurnsSinceReset(performed + [(c, a)])
            == if Resets(a) then [] else
               TurnsSinceReset(performed) + if a.AppendTurn? then [(a.text, a.id)] else []
  {
    assert (performed + [(c, a)])[..|performed|] == performed;
  }

  lemma TranscriptNext(turns: seq<(string, int)>, text: string, id: int)
    ensures Transcript(turns + [(text, id)])
            == Transcript(turns) + [User(text), Assistant(ANSWER, Some(BashTool(ToolId(id))))]
  {
    hide BashTool, ToolId;
    assert (turns + [(text, id)])[..|turns|] == turns;
  }

  lemma PerformOnMessages(s: Shared, a: Action)
    ensures Perform(s, a).0.messages
            == if Resets(a) then []
               else if a.AppendTurn? then
                 s.messages + [User(a.text), Assistant(ANSWER, Some(BashTool(ToolId(a.id))))]
               else s.messages
  {
    hide BashTool, ToolId;
  }

  lemma StepOnTranscript(s: System, step: Step)
    requires s.shared.messages == Transcript(TurnsSinceReset(s.performed)) && Enabled(s, step)
    ensures Apply(s, step).shared.messages == Transcript(TurnsSinceReset(Apply(s, step).performed))
  {
    hide Program, Perform, TurnsSinceReset, Transcript, BashTool, ToolId;
    if step.Advance? {
      var a := s.todo[step.conn][0];
      var turns := TurnsSinceReset(s.performed);
      assert Apply(s, step).performed == s.performed + [(step.conn, a)];
      TurnsNext(s.performed, step.conn, a);
      PerformOnMessages(s.shared, a);
      if a.AppendTurn? {
        TranscriptNext(turns, a.text, a.id);
      } else if Resets(a) {
        NoTurns();
      } else {
        assert turns + [] == turns;
      }
    }
  }

  lemma NoTurns()
    ensures Transcript([]) == []
  {
  }

  lemma {:induction false} TranscriptIsCompletedTurns(s: System, steps: seq<Step>)
    requires s.shared.messages == Transcript(TurnsSinceReset(s.performed)) && IsRun(s, steps)
    ensures Final(s, steps).shared.messages == Transcript(TurnsSinceReset(Final(s, steps).performed))
    decreases |steps|
  {
    hide Apply, Enabled, Transcript, TurnsSinceReset;
    if steps != [] {
      StepOnTranscript(s, steps[0]);
      TranscriptIsCompletedTurns(Apply(s, steps[0]), steps[1..]);
    }
  }

  // ---------- from a freshly started server ----------

  lemma {:induction false} LongTurnsAlternate(n: nat)
    ensures Alternates(LongTurns(n))
  {
    hide Question, Answer;
    if n > 0 {
      LongTurnsAlternate(n - 1);
    }
  }

  lemma ScenariosAlternate(name: string)
    ensures Alternates(ScenarioMessages(name))
  {
    hide LongTurns, CodeAnswer, BashTool;
    LongTurnsAlternate(6);
  }

  lemma StartIsConsistent(seeded: seq<Message>)
    requires Alternates(seeded)
    ensures TranscriptOk(Start(InitialState(seeded))) && TokensOk(Start(InitialState(seeded)))
  {
    hide Alternates;
  }

  /** Every run of a server started on an alternating transcript keeps it alternating and the bill exact. */
  lemma ServerRunsAreConsistent(seeded: seq<Message>, steps: seq<Step>)
    requires Alternates(seeded) && IsRun(Start(InitialState(seeded)), steps)
    ensures TranscriptOk(Final(Start(InitialState(seeded)), steps))
    ensures TokensOk(Final(Start(InitialState(seeded)), steps))
  {
    hide IsRun, Final, TranscriptOk, TokensOk, Alternates, InitialState;
    StartIsConsistent(seeded);
    TranscriptAlwaysAlternates(Start(InitialState(seeded)), steps);
    TokensAlwaysAddUp(Start(InitialState(seeded)), steps);
  }
}
