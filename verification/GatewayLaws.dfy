/** What the clients of the gateway are told: the state as the requests left it, and a reply for every request. */
module GatewayLaws {
  import opened Utils
  import opened Gateway

  type Ledger = seq<(Conn, Action)>

  // ---------- the shared state after a ledger of actions ----------

  /** The session named last by a resume. */
  function SessionIn(first: string, ledger: Ledger): string {
    if ledger == [] then first else
    match ledger[|ledger| - 1].1
    case Resume(Some(id)) => id
    case _ => SessionIn(first, ledger[..|ledger| - 1])
  }

  function ModelIn(first: string, ledger: Ledger): string {
    if ledger == [] then first else
    match ledger[|ledger| - 1].1
    case SetModel(_, Some(model)) => model
    case _ => ModelIn(first, ledger[..|ledger| - 1])
  }

  function EffortIn(first: string, ledger: Ledger): string {
    if ledger == [] then first else
    match ledger[|ledger| - 1].1
    case SetEffort(_, Some(effort)) => effort
    case _ => EffortIn(first, ledger[..|ledger| - 1])
  }

  /** The title of the last rename; a missing or empty one is "Untitled". */
  function TitleIn(first: string, ledger: Ledger): string {
    if ledger == [] then first else
    match ledger[|ledger| - 1].1
    case Rename(Some(title)) => if title == "" then "Untitled" else title
    case Rename(None) => "Untitled"
    case _ => TitleIn(first, ledger[..|ledger| - 1])
  }

  /** The turns since the last clear or resume, after what was there at first if there was none. */
  function MessagesIn(first: seq<Message>, ledger: Ledger): seq<Message> {
    if ledger == [] then first else
    match ledger[|ledger| - 1].1
    case Resume(_) => []
    case Clear(_) => []
    case AppendTurn(text, id) =>
      MessagesIn(first, ledger[..|ledger| - 1]) + [User(text), Assistant(ANSWER, Some(BashTool(ToolId(id))))]
    case _ => MessagesIn(first, ledger[..|ledger| - 1])
  }

  /** 120 tokens and one per character for each text billed. */
  function InputIn(first: nat, ledger: Ledger): nat {
    if ledger == [] then first else
    var a := ledger[|ledger| - 1].1;
    InputIn(first, ledger[..|ledger| - 1]) + if a.AddTokens? then 120 + |a.text| else 0
  }

  function OutputIn(first: nat, ledger: Ledger): nat {
    if ledger == [] then first else
    OutputIn(first, ledger[..|ledger| - 1]) + if ledger[|ledger| - 1].1.AddTokens? then 240 else 0
  }

  /** `s` is what the actions of the ledger make of `first`. */
  ghost predicate Reflects(first: Shared, ledger: Ledger, s: Shared) {
    && s.sessionId == SessionIn(first.sessionId, ledger)
    && s.title == TitleIn(first.title, ledger)
    && s.model == ModelIn(first.model, ledger)
    && s.effort == EffortIn(first.effort, ledger)
    && s.messages == MessagesIn(first.messages, ledger)
    && s.tokenInput == InputIn(first.tokenInput, ledger)
    && s.tokenOutput == OutputIn(first.tokenOutput, ledger)
  }

  /** What the event says about the shared state is so in `s`. */
  ghost predicate Truthful(e: Event, s: Shared) {
    match e
    case Tokens(input, output) => input == s.tokenInput && output == s.tokenOutput
    case Session(id) => id == s.sessionId
    case State(_, id, count) => id == s.sessionId && count == |s.messages|
    case History(_, shared) => shared == s
    case ModelChanged(_, model) => model == s.model
    case ModelsUpdated(model) => model == s.model
    case EffortChanged(_, effort) => effort == s.effort
    case Renamed(id, title) => id == s.sessionId && title == s.title
    case _ => true
  }

  lemma SessionNext(first: string, ledger: Ledger, c: Conn, a: Action)
    ensures SessionIn(first, ledger + [(c, a)]) ==
            if a.Resume? && a.sessionId.Some? then a.sessionId.value else SessionIn(first, ledger)
  {
    assert (ledger + [(c, a)])[..|ledger|] == ledger;
  }

  lemma ModelNext(first: string, ledger: Ledger, c: Conn, a: Action)
    ensures ModelIn(first, ledger + [(c, a)]) ==
            if a.SetModel? && a.model.Some? then a.model.value else ModelIn(first, ledger)
  {
    assert (ledger + [(c, a)])[..|ledger|] == ledger;
  }

  lemma EffortNext(first: string, ledger: Ledger, c: Conn, a: Action)
    ensures EffortIn(first, ledger + [(c, a)]) ==
            if a.SetEffort? && a.effort.Some? then a.effort.value else EffortIn(first, ledger)
  {
    assert (ledger + [(c, a)])[..|ledger|] == ledger;
  }

  lemma TitleNext(first: string, ledger: Ledger, c: Conn, a: Action)
    ensures TitleIn(first, ledger + [(c, a)]) == if a.Rename? then TitleOr(a.title) else TitleIn(first, ledger)
  {
    assert (ledger + [(c, a)])[..|ledger|] == ledger;
  }

  lemma MessagesNext(first: seq<Message>, ledger: Ledger, c: Conn, a: Action)
    ensures MessagesIn(first, ledger + [(c, a)]) ==
            if a.Resume? || a.Clear? then []
            else if a.AppendTurn? then
              MessagesIn(first, ledger) + [User(a.text), Assistant(ANSWER, Some(BashTool(ToolId(a.id))))]
            else MessagesIn(first, ledger)
  {
    hide ANSWER, BashTool, ToolId;
    assert (ledger + [(c, a)])[..|ledger|] == ledger;
  }

  lemma InputNext(first: nat, ledger: Ledger, c: Conn, a: Action)
    ensures InputIn(first, ledger + [(c, a)]) == InputIn(first, ledger) + if a.AddTokens? then 120 + |a.text| else 0
  {
    assert (ledger + [(c, a)])[..|ledger|] == ledger;
  }

  lemma OutputNext(first: nat, ledger: Ledger, c: Conn, a: Action)
    ensures OutputIn(first, ledger + [(c, a)]) == OutputIn(first, ledger) + if a.AddTokens? then 240 else 0
  {
    assert (ledger + [(c, a)])[..|ledger|] == ledger;
  }

  lemma PerformReflects(first: Shared, ledger: Ledger, s: Shared, c: Conn, a: Action)
    requires Reflects(first, ledger, s) && Harmless(a)
    ensures Reflects(first, ledger + [(c, a)], Perform(s, a).0)
    ensures Truthful(Perform(s, a).1, Perform(s, a).0)
  {
    hide SessionIn, ModelIn, EffortIn, TitleIn, MessagesIn, InputIn, OutputIn, ANSWER, BashTool, ToolId, TitleOr;
    SessionNext(first.sessionId, ledger, c, a);
    ModelNext(first.model, ledger, c, a);
    EffortNext(first.effort, ledger, c, a);
    TitleNext(first.title, ledger, c, a);
    MessagesNext(first.messages, ledger, c, a);
    InputNext(first.tokenInput, ledger, c, a);
    OutputNext(first.tokenOutput, ledger, c, a);
  }

  ghost predicate TrueAt(first: Shared, ledger: Ledger, e: Event) {
    exists s :: Reflects(first, ledger, s) && Truthful(e, s)
  }

  /** The shared state is what the ledger says, and so was it at every event sent. */
  ghost predicate Told(first: Shared, s: System) {
    && Reflects(first, s.performed, s.shared)
    && |s.sent| == |s.performed|
    && forall i :: 0 <= i < |s.sent| ==>
         && s.sent[i].0 == s.performed[i].0
         && TrueAt(first, s.performed[..i + 1], s.sent[i].1)
  }

  lemma Witnessed(first: Shared, ledger: Ledger, e: Event, s: Shared)
    requires Reflects(first, ledger, s) && Truthful(e, s)
    ensures TrueAt(first, ledger, e)
  {
  }

  lemma StepTells(first: Shared, s: System, step: Step)
    requires Told(first, s) && ProgramsHarmless(s) && Enabled(s, step)
    ensures Told(first, Apply(s, step))
  {
    hide Perform, Program, Reflects, Truthful, Harmless, TrueAt;
    if step.Advance? {
      var c := step.conn;
      var a := s.todo[c][0];
      var t := Apply(s, step);
      FirstHarmless(s, c);
      PerformReflects(first, s.performed, s.shared, c, a);
      Witnessed(first, s.performed + [(c, a)], Perform(s.shared, a).1, Perform(s.shared, a).0);
      assert t.performed == s.performed + [(c, a)] && t.sent == s.sent + [(c, Perform(s.shared, a).1)];
      forall i | 0 <= i < |t.sent|
        ensures t.sent[i].0 == t.performed[i].0
        ensures TrueAt(first, t.performed[..i + 1], t.sent[i].1)
      {
        if i < |s.sent| {
          assert t.performed[..i + 1] == s.performed[..i + 1];
        } else {
          assert t.performed[..i + 1] == t.performed;
        }
      }
    }
  }

  lemma {:induction false} RunTells(first: Shared, s: System, steps: seq<Step>)
    requires Told(first, s) && ProgramsHarmless(s) && IsRun(s, steps)
    ensures Told(first, Final(s, steps))
    decreases |steps|
  {
    hide Told, Enabled, Apply;
    if steps != [] {
      StepTells(first, s, steps[0]);
      StepKeepsHarmless(s, steps[0]);
      RunTells(first, Apply(s, steps[0]), steps[1..]);
    }
  }

  /**
   * Under every interleaving each event tells the session, title, model, effort, transcript and token counts as the
   * actions performed up to then have left them.
   */
  lemma EventsAreTruthful(first: Shared, steps: seq<Step>)
    requires IsRun(Start(first), steps)
    ensures Told(first, Final(Start(first), steps))
  {
    hide IsRun, Final;
    RunTells(first, Start(first), steps);
  }

  // ---------- what a client receives ----------

  /** What an event means to a client, text character by character and without what it says about the state. */
  datatype Receipt =
    | Thought(char) | Said(char) | Typed(char)
    | Plain(event: Event)
    | TokensTold | SessionTold | StateTold(id: int) | HistoryTold(id: int) | ModelTold(id: int) | ModelsTold
    | EffortTold(id: int) | NameTold

  function Thinking(text: string): seq<Receipt> {
    seq(|text|, i requires 0 <= i < |text| => Thought(text[i]))
  }

  function Saying(text: string): seq<Receipt> {
    seq(|text|, i requires 0 <= i < |text| => Said(text[i]))
  }

  function Typing(text: string): seq<Receipt> {
    seq(|text|, i requires 0 <= i < |text| => Typed(text[i]))
  }

  function Received(e: Event): seq<Receipt> {
    match e
    case ReasoningDelta(text) => Thinking(text)
    case TextDelta(text) => Saying(text)
    case ToolInput(delta) => Typing(delta)
    case Tokens(_, _) => [TokensTold]
    case Session(_) => [SessionTold]
    case State(id, _, _) => [StateTold(id)]
    case History(id, _) => [HistoryTold(id)]
    case ModelChanged(id, _) => [ModelTold(id)]
    case ModelsUpdated(_) => [ModelsTold]
    case EffortChanged(id, _) => [EffortTold(id)]
    case Renamed(_, _) => [NameTold]
    case _ => [Plain(e)]
  }

  ghost function ReceivedBy(c: Conn, sent: seq<(Conn, Event)>): seq<Receipt> {
    if sent == [] then [] else
    ReceivedBy(c, sent[..|sent| - 1])
    + if sent[|sent| - 1].0 == c then Received(sent[|sent| - 1].1) else []
  }

  /** What a client is owed for a request: every event of the reply, in order, with the request's own id. */
  function Owed(r: Request): seq<Receipt> {
    match r
    case Subscribe(id) => [Plain(Ack(id)), SessionTold, StateTold(id)]
    case GetHistory(id) => [HistoryTold(id)]
    case Send(id, content) => OwedStream(content, id)
    case SoftInterrupt(id, content) => [Plain(Ack(id)), Plain(SoftInterruptInjected(content))] + OwedStream(content, id)
    case Cancel(id) => [Plain(Interrupted), Plain(Done(id))]
    case Ping(id) => [Plain(Pong(id))]
    case ChooseModel(id, _) => [ModelTold(id), ModelsTold]
    case ChooseEffort(id, _) => [EffortTold(id)]
    case Compact(id) => [Plain(CompactResult(id))]
    case RenameSession(_) => [NameTold]
    case ResumeSession(id, _) => [SessionTold, HistoryTold(id)]
    case ClearSession(id) => [HistoryTold(id)]
    case CancelSoftInterrupts(id) => [Plain(Ack(id))]
    case Notify => [Plain(Notification), Plain(Compaction)]
    case Unknown => []
  }

  /** A streamed reply: the tool's input, typed piece by piece, is the input that the transcript records for it. */
  function OwedStream(text: string, id: int): seq<Receipt> {
    [Plain(Ack(id))] + Thinking("Looking at the request...") + [Plain(ReasoningDone)]
    + Saying("You said: " + text + "\n\nRunning a quick tool to demonstrate.\n\n")
    + ([Plain(ToolStart(ToolId(id)))] + Typing(BashTool(ToolId(id)).input)
       + [Plain(ToolExec(ToolId(id))), Plain(ToolDone(ToolId(id)))])
    + Saying(ANSWER)
    + [Plain(MessageEnd), TokensTold, Plain(Done(id))]
  }

  /** The changes that a request asks for, with the values it gives. */
  function Asked(r: Request): seq<Action> {
    match r
    case Send(id, content) => [AddTokens(content), AppendTurn(content, id)]
    case SoftInterrupt(id, content) => [AddTokens(content), AppendTurn(content, id)]
    case ChooseModel(id, model) => [SetModel(id, model)]
    case ChooseEffort(id, effort) => [SetEffort(id, effort)]
    case RenameSession(title) => [Rename(title)]
    case ResumeSession(_, id) => [Resume(id)]
    case ClearSession(id) => [Clear(id)]
    case _ => []
  }

  predicate Changes(a: Action) {
    a.AddTokens? || a.AppendTurn? || a.SetModel? || a.SetEffort? || a.Rename? || a.Resume? || a.Clear?
  }

  ghost function ChangesIn(actions: seq<Action>): seq<Action> {
    if actions == [] then [] else
    ChangesIn(actions[..|actions| - 1])
    + if Changes(actions[|actions| - 1]) then [actions[|actions| - 1]] else []
  }

  ghost function OwedTo(c: Conn, steps: seq<Step>): seq<Receipt> {
    if steps == [] then [] else
    (if steps[0].Receive? && steps[0].conn == c then Owed(steps[0].request) else []) + OwedTo(c, steps[1..])
  }

  ghost function AskedBy(c: Conn, steps: seq<Step>): seq<Action> {
    if steps == [] then [] else
    (if steps[0].Receive? && steps[0].conn == c then Asked(steps[0].request) else []) + AskedBy(c, steps[1..])
  }

  // ---------- actions and their receipts ----------

  function ReceivedFor(a: Action): seq<Receipt> {
    match a
    case Emit(e) => Received(e)
    case AddTokens(_) => [TokensTold]
    case AppendTurn(_, id) => [Plain(Done(id))]
    case EmitSession => [SessionTold]
    case EmitState(id) => [StateTold(id)]
    case EmitHistory(id) => [HistoryTold(id)]
    case SetModel(id, _) => [ModelTold(id)]
    case EmitModels => [ModelsTold]
    case SetEffort(id, _) => [EffortTold(id)]
    case Rename(_) => [NameTold]
    case Resume(_) => [SessionTold]
    case Clear(id) => [HistoryTold(id)]
  }

  ghost function ReceivedForAll(actions: seq<Action>): seq<Receipt> {
    if actions == [] then [] else
    ReceivedForAll(actions[..|actions| - 1]) + ReceivedFor(actions[|actions| - 1])
  }

  lemma PerformSends(s: Shared, a: Action)
    ensures Received(Perform(s, a).1) == ReceivedFor(a)
  {
    hide Thinking, Saying, Typing, BashTool, ToolId, ANSWER, TitleOr;
  }

  lemma ReceivedForOne(a: Action)
    ensures ReceivedForAll([a]) == ReceivedFor(a)
  {
    hide ReceivedFor;
    assert [a][..0] == [];
  }

  lemma {:induction false} ReceivedConcat(a: seq<Action>, b: seq<Action>)
    ensures ReceivedForAll(a + b) == ReceivedForAll(a) + ReceivedForAll(b)
    decreases |b|
  {
    hide ReceivedFor;
    if b == [] {
      assert a + b == a;
    } else {
      ReceivedConcat(a, b[..|b| - 1]);
      assert (a + b)[..|a + b| - 1] == a + b[..|b| - 1];
      assert ReceivedForAll(a) + ReceivedForAll(b[..|b| - 1]) + ReceivedFor(b[|b| - 1])
             == ReceivedForAll(a) + (ReceivedForAll(b[..|b| - 1]) + ReceivedFor(b[|b| - 1]));
    }
  }

  lemma {:induction false} ChangesConcat(a: seq<Action>, b: seq<Action>)
    ensures ChangesIn(a + b) == ChangesIn(a) + ChangesIn(b)
    decreases |b|
  {
    hide Changes;
    if b == [] {
      assert a + b == a;
    } else {
      ChangesConcat(a, b[..|b| - 1]);
      assert (a + b)[..|a + b| - 1] == a + b[..|b| - 1];
      var last := if Changes(b[|b| - 1]) then [b[|b| - 1]] else [];
      assert ChangesIn(a) + ChangesIn(b[..|b| - 1]) + last == ChangesIn(a) + (ChangesIn(b[..|b| - 1]) + last);
    }
  }

  lemma {:induction false} NoChanges(actions: seq<Action>)
    requires forall i :: 0 <= i < |actions| ==> !Changes(actions[i])
    ensures ChangesIn(actions) == []
  {
    if actions != [] {
      NoChanges(actions[..|actions| - 1]);
    }
  }

  lemma OneChange(a: Action)
    requires Changes(a)
    ensures ChangesIn([a]) == [a]
  {
    assert [a][..0] == [];
  }

  // ---------- a streamed reply ----------

  ghost predicate ShortDeltas(actions: seq<Action>) {
    forall a :: a in actions && a.Emit? && a.event.TextDelta? ==> 1 <= |a.event.text| <= 8
  }

  /** A reply streams its text in pieces of at most eight characters. */
  lemma RepliesStreamInPieces(text: string, id: int)
    ensures ShortDeltas(StreamProgram(text, id))
  {
    hide ChunkText, Intro, ANSWER, ToolId;
    ChunkSizes(Intro(text), 6);
    ChunkSizes(ANSWER, 8);
    ShortPieces(ChunkText(Intro(text), 6));
    ShortPieces(ChunkText(ANSWER, 8));
    ShortFive(StreamHead(id), Deltas(ChunkText(Intro(text), 6)), ToolCall(id), Deltas(ChunkText(ANSWER, 8)),
              [Emit(MessageEnd)], [AddTokens(text), AppendTurn(text, id)]);
  }

  lemma ShortPieces(chunks: seq<string>)
    requires forall i :: 0 <= i < |chunks| ==> 1 <= |chunks[i]| <= 8
    ensures ShortDeltas(Deltas(chunks))
  {
  }

  lemma ShortFive(a: seq<Action>, b: seq<Action>, c: seq<Action>, d: seq<Action>, e: seq<Action>, f: seq<Action>)
    requires ShortDeltas(a) && ShortDeltas(b) && ShortDeltas(c) && ShortDeltas(d) && ShortDeltas(e) && ShortDeltas(f)
    ensures ShortDeltas(a + b + c + d + e + f)
  {
  }

  lemma SayingConcat(a: string, b: string)
    ensures Saying(a + b) == Saying(a) + Saying(b)
  {
  }

  lemma DeltaReceived(chunk: string, rest: seq<string>)
    ensures ReceivedForAll(Deltas([chunk] + rest)) == Saying(chunk) + ReceivedForAll(Deltas(rest))
  {
    hide ReceivedForAll, Deltas, Saying;
    FirstDelta(chunk, rest);
    ReceivedConcat([Emit(TextDelta(chunk))], Deltas(rest));
    ReceivedForOne(Emit(TextDelta(chunk)));
  }

  lemma NothingReceived()
    ensures ReceivedForAll(Deltas([])) == [] && Saying("") == [] && ReceivedForAll([]) == []
  {
  }

  /** However a text is cut into chunks, the client receives its characters in order. */
  lemma {:induction false} ChunksReceived(text: string, size: nat)
    requires size > 0
    ensures ReceivedForAll(Deltas(ChunkText(text, size))) == Saying(text)
  {
    hide ReceivedForAll, Deltas, Saying;
    NothingReceived();
    if |text| == 0 {
      assert text == "";
    } else if |text| <= size {
      DeltaReceived(text, []);
      assert [text] + [] == [text];
      assert Saying(text) + [] == Saying(text);
    } else {
      DeltaReceived(text[..size], ChunkText(text[size..], size));
      ChunksReceived(text[size..], size);
      SayingConcat(text[..size], text[size..]);
      assert text[..size] + text[size..] == text;
    }
  }

  lemma ThinkingPieces()
    ensures Thinking("Looking at ") + Thinking("the request") + Thinking("...") == Thinking("Looking at the request...")
  {
  }

  lemma TypingPieces(id: int)
    ensures Typing("{\"command\":") + Typing(" \"echo ") + Typing("hello\"}") == Typing(BashTool(ToolId(id)).input)
  {
    hide ToolId;
  }

  lemma ThreeReceived(a: Action, b: Action, c: Action)
    ensures ReceivedForAll([a, b, c]) == ReceivedFor(a) + ReceivedFor(b) + ReceivedFor(c)
  {
    hide ReceivedForAll, ReceivedFor;
    assert [a, b, c] == [a, b] + [c] && [a, b] == [a] + [b];
    ReceivedConcat([a, b], [c]);
    ReceivedConcat([a], [b]);
    ReceivedForOne(a);
    ReceivedForOne(b);
    ReceivedForOne(c);
  }

  lemma HeadReceived(id: int)
    ensures ReceivedForAll(StreamHead(id))
            == [Plain(Ack(id))] + Thinking("Looking at the request...") + [Plain(ReasoningDone)]
  {
    hide ReceivedForAll, Thinking;
    var a, b, c :=
      Emit(ReasoningDelta("Looking at ")), Emit(ReasoningDelta("the request")), Emit(ReasoningDelta("..."));
    assert StreamHead(id) == [Emit(Ack(id))] + [a, b, c] + [Emit(ReasoningDone)];
    ReceivedConcat([Emit(Ack(id))] + [a, b, c], [Emit(ReasoningDone)]);
    ReceivedConcat([Emit(Ack(id))], [a, b, c]);
    ThreeReceived(a, b, c);
    ReceivedForOne(Emit(Ack(id)));
    ReceivedForOne(Emit(ReasoningDone));
    ThinkingPieces();
  }

  lemma ToolReceived(id: int)
    ensures ReceivedForAll(ToolCall(id))
            == [Plain(ToolStart(ToolId(id)))] + Typing(BashTool(ToolId(id)).input)
               + [Plain(ToolExec(ToolId(id))), Plain(ToolDone(ToolId(id)))]
  {
    hide ReceivedForAll, Typing, ToolId, BashTool;
    var a, b, c := Emit(ToolInput("{\"command\":")), Emit(ToolInput(" \"echo ")), Emit(ToolInput("hello\"}"));
    var start, exec, end := Emit(ToolStart(ToolId(id))), Emit(ToolExec(ToolId(id))), Emit(ToolDone(ToolId(id)));
    assert ToolCall(id) == [start] + [a, b, c] + ([exec] + [end]);
    ReceivedConcat([start] + [a, b, c], [exec] + [end]);
    ReceivedConcat([start], [a, b, c]);
    ReceivedConcat([exec], [end]);
    ThreeReceived(a, b, c);
    ReceivedForOne(start);
    ReceivedForOne(exec);
    ReceivedForOne(end);
    TypingPieces(id);
  }

  lemma EndReceived(text: string, id: int)
    ensures ReceivedForAll([Emit(MessageEnd)] + [AddTokens(text), AppendTurn(text, id)])
            == [Plain(MessageEnd), TokensTold, Plain(Done(id))]
  {
    hide ReceivedForAll;
    assert [Emit(MessageEnd)] + [AddTokens(text), AppendTurn(text, id)]
           == [Emit(MessageEnd), AddTokens(text), AppendTurn(text, id)];
    ThreeReceived(Emit(MessageEnd), AddTokens(text), AppendTurn(text, id));
  }

  lemma FiveReceived(a: seq<Action>, b: seq<Action>, c: seq<Action>, d: seq<Action>, e: seq<Action>, f: seq<Action>)
    ensures ReceivedForAll(a + b + c + d + e + f)
            == ReceivedForAll(a) + ReceivedForAll(b) + ReceivedForAll(c) + ReceivedForAll(d) + ReceivedForAll(e + f)
  {
    hide ReceivedForAll;
    assert a + b + c + d + e + f == a + b + c + d + (e + f);
    ReceivedConcat(a + b + c + d, e + f);
    ReceivedConcat(a + b + c, d);
    ReceivedConcat(a + b, c);
    ReceivedConcat(a, b);
  }

  lemma StreamReceived(text: string, id: int)
    ensures ReceivedForAll(StreamProgram(text, id)) == OwedStream(text, id)
  {
    hide ReceivedForAll, Deltas, ChunkText, StreamHead, ToolCall, Thinking, Saying, Typing, ANSWER, BashTool, ToolId;
    var b, d := Deltas(ChunkText(Intro(text), 6)), Deltas(ChunkText(ANSWER, 8));
    FiveReceived(StreamHead(id), b, ToolCall(id), d, [Emit(MessageEnd)], [AddTokens(text), AppendTurn(text, id)]);
    HeadReceived(id);
    ChunksReceived(Intro(text), 6);
    ToolReceived(id);
    ChunksReceived(ANSWER, 8);
    EndReceived(text, id);
  }

  lemma StreamChanges(text: string, id: int)
    ensures ChangesIn(StreamProgram(text, id)) == [AddTokens(text), AppendTurn(text, id)]
  {
    hide StreamBody, ChangesIn;
    BodyConstant(text, id);
    NoChanges(StreamBody(text, id));
    ChangesConcat(StreamBody(text, id), [AddTokens(text)] + [AppendTurn(text, id)]);
    ChangesConcat([AddTokens(text)], [AppendTurn(text, id)]);
    OneChange(AddTokens(text));
    OneChange(AppendTurn(text, id));
    assert [AddTokens(text)] + [AppendTurn(text, id)] == [AddTokens(text), AppendTurn(text, id)];
  }

  // ---------- every request ----------

  lemma TwoReceived(a: Action, b: Action)
    ensures ReceivedForAll([a, b]) == ReceivedFor(a) + ReceivedFor(b)
  {
    hide ReceivedForAll, ReceivedFor;
    assert [a, b] == [a] + [b];
    ReceivedConcat([a], [b]);
    ReceivedForOne(a);
    ReceivedForOne(b);
  }

  predicate AnsweredOnce(r: Request) {
    || r.GetHistory? || r.Ping? || r.ChooseEffort? || r.Compact? || r.RenameSession? || r.ClearSession?
    || r.CancelSoftInterrupts?
  }

  lemma SingleReceived(r: Request)
    requires AnsweredOnce(r)
    ensures ReceivedForAll(Program(r)) == Owed(r)
  {
    hide ReceivedForAll, StreamProgram, OwedStream, Thinking, Saying, Typing;
    match r {
      case GetHistory(id) => ReceivedForOne(EmitHistory(id));
      case Ping(id) => ReceivedForOne(Emit(Pong(id)));
      case ChooseEffort(id, e) => ReceivedForOne(SetEffort(id, e));
      case Compact(id) => ReceivedForOne(Emit(CompactResult(id)));
      case RenameSession(t) => ReceivedForOne(Rename(t));
      case ClearSession(id) => ReceivedForOne(Clear(id));
      case CancelSoftInterrupts(id) => ReceivedForOne(Emit(Ack(id)));
      case _ =>
    }
  }

  lemma StreamedReceived(r: Request)
    requires r.Send? || r.SoftInterrupt?
    ensures ReceivedForAll(Program(r)) == Owed(r)
  {
    hide ReceivedForAll, StreamProgram, OwedStream, Thinking, Saying, Typing;
    var id := r.id;
    StreamReceived(r.content, id);
    if r.SoftInterrupt? {
      TwoReceived(Emit(Ack(id)), Emit(SoftInterruptInjected(r.content)));
      ReceivedConcat([Emit(Ack(id)), Emit(SoftInterruptInjected(r.content))], StreamProgram(r.content, id));
    }
  }

  /** The reply to each request is what is owed for it. */
  lemma ProgramReceived(r: Request)
    ensures ReceivedForAll(Program(r)) == Owed(r)
  {
    hide ReceivedForAll, StreamProgram, OwedStream, Thinking, Saying, Typing;
    if r.Send? || r.SoftInterrupt? {
      StreamedReceived(r);
    } else if AnsweredOnce(r) {
      SingleReceived(r);
    } else {
      NothingReceived();
      match r {
        case Subscribe(id) => ThreeReceived(Emit(Ack(id)), EmitSession, EmitState(id));
        case Cancel(id) => TwoReceived(Emit(Interrupted), Emit(Done(id)));
        case ChooseModel(id, m) => TwoReceived(SetModel(id, m), EmitModels);
        case ResumeSession(id, sid) => TwoReceived(Resume(sid), EmitHistory(id));
        case Notify => TwoReceived(Emit(Notification), Emit(Compaction));
        case _ =>
      }
    }
  }

  /** The changes a request's actions make are those it asks for. */
  lemma ProgramChanges(r: Request)
    ensures ChangesIn(Program(r)) == Asked(r)
  {
    hide StreamProgram, ChangesIn;
    match r {
      case Send(id, content) => StreamChanges(content, id);
      case SoftInterrupt(id, content) =>
        var head := [Emit(Ack(id)), Emit(SoftInterruptInjected(content))];
        NoChanges(head);
        StreamChanges(content, id);
        ChangesConcat(head, StreamProgram(content, id));
      case ChooseModel(id, m) =>
        OneChange(SetModel(id, m));
        NoChanges([EmitModels]);
        ChangesConcat([SetModel(id, m)], [EmitModels]);
        assert [SetModel(id, m)] + [EmitModels] == [SetModel(id, m), EmitModels];
      case ResumeSession(id, sid) =>
        OneChange(Resume(sid));
        NoChanges([EmitHistory(id)]);
        ChangesConcat([Resume(sid)], [EmitHistory(id)]);
        assert [Resume(sid)] + [EmitHistory(id)] == [Resume(sid), EmitHistory(id)];
      case ChooseEffort(id, e) => OneChange(SetEffort(id, e));
      case RenameSession(t) => OneChange(Rename(t));
      case ClearSession(id) => OneChange(Clear(id));
      case _ => NoChanges(Program(r));
    }
  }

  lemma {:induction false} RequestedReceived(c: Conn, steps: seq<Step>)
    ensures ReceivedForAll(Requested(c, steps)) == OwedTo(c, steps)
    ensures ChangesIn(Requested(c, steps)) == AskedBy(c, steps)
  {
    hide Program, Owed, Asked, ReceivedFor, Changes;
    if steps != [] {
      RequestedReceived(c, steps[1..]);
      if steps[0].Receive? && steps[0].conn == c {
        ProgramReceived(steps[0].request);
        ProgramChanges(steps[0].request);
        ReceivedConcat(Program(steps[0].request), Requested(c, steps[1..]));
        ChangesConcat(Program(steps[0].request), Requested(c, steps[1..]));
      } else {
        assert Requested(c, steps) == Requested(c, steps[1..]);
      }
    }
  }

  // ---------- over whole runs ----------

  lemma SentReceived(c: Conn, sent: seq<(Conn, Event)>, d: Conn, e: Event)
    ensures ReceivedBy(c, sent + [(d, e)]) == ReceivedBy(c, sent) + if d == c then Received(e) else []
  {
    hide Received;
    assert (sent + [(d, e)])[..|sent|] == sent;
  }

  lemma StepKeepsReceived(s: System, step: Step, c: Conn)
    requires ReceivedBy(c, s.sent) == ReceivedForAll(ActionsOf(c, s.performed)) && Enabled(s, step)
    ensures ReceivedBy(c, Apply(s, step).sent) == ReceivedForAll(ActionsOf(c, Apply(s, step).performed))
  {
    hide Program, Perform, ReceivedBy, ActionsOf, ReceivedForAll, Received, ReceivedFor;
    if step.Advance? {
      var t := Apply(s, step);
      var a := s.todo[step.conn][0];
      var e := Perform(s.shared, a).1;
      assert t.performed == s.performed + [(step.conn, a)] && t.sent == s.sent + [(step.conn, e)];
      PerformSends(s.shared, a);
      ReceivedForOne(a);
      SentReceived(c, s.sent, step.conn, e);
      ActionsNext(c, s.performed, step.conn, a);
      if step.conn == c {
        ReceivedConcat(ActionsOf(c, s.performed), [a]);
      } else {
        assert ActionsOf(c, s.performed) + [] == ActionsOf(c, s.performed);
        assert ReceivedBy(c, s.sent) + [] == ReceivedBy(c, s.sent);
      }
    }
  }

  lemma {:induction false} RunKeepsReceived(s: System, steps: seq<Step>, c: Conn)
    requires ReceivedBy(c, s.sent) == ReceivedForAll(ActionsOf(c, s.performed)) && IsRun(s, steps)
    ensures ReceivedBy(c, Final(s, steps).sent) == ReceivedForAll(ActionsOf(c, Final(s, steps).performed))
    decreases |steps|
  {
    hide Apply, Enabled, ReceivedBy, ActionsOf, ReceivedForAll;
    if steps != [] {
      StepKeepsReceived(s, steps[0], c);
      RunKeepsReceived(Apply(s, steps[0]), steps[1..], c);
    }
  }

  lemma PrefixReceived(done: seq<Action>, all: seq<Action>)
    requires done <= all
    ensures ReceivedForAll(done) <= ReceivedForAll(all) && ChangesIn(done) <= ChangesIn(all)
  {
    hide ReceivedForAll, ChangesIn;
    assert all == done + all[|done|..];
    ReceivedConcat(done, all[|done|..]);
    ChangesConcat(done, all[|done|..]);
  }

  lemma NothingSent(c: Conn)
    ensures ReceivedBy(c, []) == ReceivedForAll(ActionsOf(c, []))
  {
  }

  /**
   * The client has received a beginning of what its own requests are owed, and made a beginning of the changes they ask
   * for; if its connection is open with nothing left to run, all of it.
   */
  ghost predicate Served(c: Conn, steps: seq<Step>, end: System) {
    && ReceivedBy(c, end.sent) <= OwedTo(c, steps)
    && ChangesIn(ActionsOf(c, end.performed)) <= AskedBy(c, steps)
    && (c in end.todo && end.todo[c] == [] ==>
          ReceivedBy(c, end.sent) == OwedTo(c, steps) && ChangesIn(ActionsOf(c, end.performed)) == AskedBy(c, steps))
  }

  lemma NothingRunYet(first: Shared, steps: seq<Step>, c: Conn)
    ensures ActionsOf(c, Start(first).performed) + Remaining(Start(first), c) + Requested(c, steps)
            == Requested(c, steps)
  {
    hide Requested;
  }

  /** Whatever the others do, every client is served what it is owed. */
  lemma RepliesAreOwed(first: Shared, steps: seq<Step>, c: Conn)
    requires IsRun(Start(first), steps)
    ensures Served(c, steps, Final(Start(first), steps))
  {
    hide IsRun, Final, ReceivedBy, ReceivedForAll, ChangesIn, OwedTo, AskedBy, ActionsOf, Requested, Remaining;
    var end := Final(Start(first), steps);
    var done := ActionsOf(c, end.performed);
    ConnectionRunsItsRequests(Start(first), steps, c);
    NothingSent(c);
    RunKeepsReceived(Start(first), steps, c);
    RequestedReceived(c, steps);
    NothingRunYet(first, steps, c);
    PrefixReceived(done, Requested(c, steps));
    assert done + [] == done;
  }
}
