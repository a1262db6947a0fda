/** The gateway as it runs: one shared object, driven by its connections. */
module GatewayServer {
  import opened Utils
  import opened Gateway
  import opened GatewayLaws

  // ---------- the running server ----------

  /** The connections drive one shared object through any schedule. */
  method Serve(g: GatewayState, steps: seq<Step>)
      returns (todo: map<Conn, seq<Action>>, sent: seq<(Conn, Event)>, ghost final: System)
    requires IsRun(Start(g.Value()), steps)
    modifies g
    ensures final == Final(Start(old(g.Value())), steps)
    ensures g.Value() == final.shared && todo == final.todo && sent == final.sent
    ensures Told(old(g.Value()), final) && forall c :: Served(c, steps, final)
  {
    hide Program, Perform, Told, Served;
    EventsAreTruthful(g.Value(), steps);
    forall c
      ensures Served(c, steps, Final(Start(g.Value()), steps))
    {
      RepliesAreOwed(g.Value(), steps, c);
    }
    todo, sent, final := map[], [], Start(g.Value());
    for k := 0 to |steps|
      invariant IsRun(final, steps[k..]) && Final(final, steps[k..]) == Final(Start(old(g.Value())), steps)
      invariant g.Value() == final.shared && todo == final.todo && sent == final.sent
    {
      assert steps[k..][0] == steps[k] && steps[k..][1..] == steps[k + 1..];
      match steps[k] {
        case Connect(c) =>
          todo := todo[c := []];
        case Receive(c, r) =>
          todo := todo[c := Program(r)];
        case Advance(c) =>
          var event := g.Run(todo[c][0]);
          todo := todo[c := todo[c][1..]];
          sent := sent + [(c, event)];
        case Drop(c) =>
          todo := todo - {c};
      }
      final := Apply(final, steps[k]);
    }
  }

  /** A server started on any scenario, after any schedule: the object's own transcript and counters are right. */
  method StartServer(scenario: string, steps: seq<Step>) returns (g: GatewayState, ghost final: System)
    requires IsRun(Start(InitialState(ScenarioMessages(scenario))), steps)
    ensures fresh(g) && final == Final(Start(InitialState(ScenarioMessages(scenario))), steps)
    ensures g.Value() == final.shared && Alternates(g.messages)
    ensures g.tokenInput == InputFor(Billed(final.performed)) && g.tokenOutput == 240 * |Billed(final.performed)|
    ensures forall c :: c in final.todo && final.todo[c] == [] ==> TextSent(c, final.sent) == Replies(c, steps)
    ensures Told(InitialState(ScenarioMessages(scenario)), final) && forall c :: Served(c, steps, final)
  {
    hide Told, Served, IsRun, Final, ScenarioMessages, Alternates, Billed, InputFor;
    g := new GatewayState();
    ScenariosAlternate(scenario);
    if scenario != "" {
      g.messages := ScenarioMessages(scenario);
    } else {
      EmptyScenario();
    }
    var todo, sent;
    todo, sent, final := Serve(g, steps);
    ServerRunsAreConsistent(ScenarioMessages(scenario), steps);
    forall c | c in final.todo && final.todo[c] == []
      ensures TextSent(c, final.sent) == Replies(c, steps)
    {
      ClientsReceiveTheirReplies(InitialState(ScenarioMessages(scenario)), steps, c);
    }
  }

  lemma EmptyScenario()
    ensures ScenarioMessages("") == []
  {
  }
}
