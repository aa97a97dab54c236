/**
 The four graph shapes of `agent/graph.py` as one step function. What the model, the tools and the
 reflector answer is an arbitrary input of each step; the prompt built from the messages and the
 parsing of the plan do not influence the route and are not part of this model.
 */
module AgentGraph {
  import opened ReflectRouter

  datatype Mode = Simple | React | ReactReflect | PlanAndExecute

  /** `Llm` is called "executor" in plan-and-execute mode. */
  datatype Node = Planner | Llm | Tools | Reflect | End

  datatype Message = Human(content: string) | System(content: string) | Ai(content: string, toolCalls: seq<string>)
                   | Tool(content: string)

  datatype State = State(node: Node, messages: seq<Message>, iterations: nat)

  /** The answers of one step: the model's reply, the tools' results, the reflector's verdict. */
  datatype Input = Input(reply: string, toolCalls: seq<string>, results: seq<string>, verdict: Verdict)

  datatype Graph = Graph(mode: Mode, maxIterations: int, upper: char -> string)

  type Inputs = nat -> Input

  function Entry(g: Graph, messages: seq<Message>): State {
    State(if g.mode == PlanAndExecute then Planner else Llm, messages, 0)
  }

  /** `should_continue`. */
  predicate ShouldContinue(g: Graph, s: State)
    requires s.messages != []
  {
    var last := s.messages[|s.messages| - 1];
    s.iterations < g.maxIterations && last.Ai? && last.toolCalls != []
  }

  /** `reflect_router`. */
  ghost predicate Replans(g: Graph, s: State)
    requires s.messages != []
  {
    Mentions(g.upper, s.messages[|s.messages| - 1].content) && s.iterations < g.maxIterations
  }

  function Answered(s: State, m: Message): (r: State)
    ensures r.messages != []
  {
    State(s.node, s.messages + [m], s.iterations + 1)
  }

  function ToolMessages(results: seq<string>): seq<Message> {
    if results == [] then [] else [Tool(results[0])] + ToolMessages(results[1..])
  }

  /** Where `llm_node` leads. */
  function AfterLlm(g: Graph, s: State): Node
    requires s.messages != []
  {
    if g.mode == Simple then End
    else if ShouldContinue(g, s) then Tools
    else if g.mode == React then End
    else Reflect
  }

  ghost function AfterReflect(g: Graph, s: State): Node
    requires s.messages != []
  {
    if !Replans(g, s) then End else if g.mode == PlanAndExecute then Planner else Llm
  }

  ghost function Step(g: Graph, s: State, x: Input): State {
    match s.node
    case Planner => Answered(s, Ai(x.reply, x.toolCalls)).(node := Llm)
    case Llm => var t := Answered(s, Ai(x.reply, x.toolCalls)); t.(node := AfterLlm(g, t))
    case Tools => State(Llm, s.messages + ToolMessages(x.results), s.iterations)
    case Reflect => var t := Answered(s, Ai(Content(x.verdict), [])); t.(node := AfterReflect(g, t))
    case End => s
  }

  /** The state after `n` steps. */
  ghost function Run(g: Graph, messages: seq<Message>, inputs: Inputs, n: nat): State {
    if n == 0 then Entry(g, messages) else Step(g, Run(g, messages, inputs, n - 1), inputs(n - 1))
  }

  // ---- Every run ends ----

  function Cap(g: Graph): int {
    if g.maxIterations < 1 then 1 else g.maxIterations
  }

  /** The largest number of iterations a finished run can show. */
  function Most(g: Graph): int {
    match g.mode
    case Simple => 1
    case React => Cap(g)
    case ReactReflect => Cap(g) + 1
    case PlanAndExecute => if Cap(g) == 2 || Cap(g) == 3 then Cap(g) + 1 else Cap(g) + 2
  }

  /** The range of the iteration counter on arrival at each node. */
  ghost predicate Inv(g: Graph, s: State) {
    var i, cap := s.iterations, Cap(g);
    match s.node
    case Planner => g.mode == PlanAndExecute && i < cap && (i == 0 || 3 <= i)
    case Llm =>
      if g.mode == PlanAndExecute then 1 <= i <= cap && (2 <= cap <= 3 ==> i < cap)
      else i < cap && (g.mode == Simple ==> i == 0)
    case Tools => g.mode != Simple && 1 <= i < cap
    case Reflect =>
      if g.mode == PlanAndExecute then 2 <= i <= cap + 1 && (2 <= cap <= 3 ==> i <= cap)
      else g.mode == ReactReflect && 1 <= i <= cap
    case End => 1 <= i <= Most(g)
  }

  /** More than the number of steps still to go. */
  function Measure(g: Graph, s: State): int {
    2 * (Most(g) - s.iterations) + if s.node == Tools then 1 else 0
  }

  /** A visit to the tools does not count as an iteration, but each is followed by one that does. */
  lemma StepDecreases(g: Graph, s: State, x: Input)
    requires Inv(g, s) && s.node != End
    ensures Measure(g, Step(g, s, x)) < Measure(g, s) && 2 <= Measure(g, s)
  {
  }

  lemma {:induction false} RunIsBounded(g: Graph, messages: seq<Message>, inputs: Inputs, n: nat)
    ensures Inv(g, Run(g, messages, inputs, n))
    ensures var s := Run(g, messages, inputs, n); s.node == End || Measure(g, s) <= 2 * Most(g) - n
  {
    if n == 0 {
    } else {
      var s := Run(g, messages, inputs, n - 1);
      RunIsBounded(g, messages, inputs, n - 1);
      if s.node != End { StepDecreases(g, s, inputs(n - 1)); }
    }
  }

  /** Whatever the model, the tools and the reflector answer, every graph reaches its end. */
  lemma Halts(g: Graph, messages: seq<Message>, inputs: Inputs, n: nat)
    requires n >= 2 * Most(g) - 1
    ensures var s := Run(g, messages, inputs, n); s.node == End && 1 <= s.iterations <= Most(g)
  {
    RunIsBounded(g, messages, inputs, n);
    var s := Run(g, messages, inputs, n);
    if s.node != End { StepDecreases(g, s, inputs(n)); }
  }

  // ---- The bounds are attained ----

  const FAILED := Verdict(false, "0.00", "", [], [])
  const BUSY := Input("", ["call"], [], FAILED)
  const IDLE := Input("", [], [], FAILED)

  /** Asks for a tool in every step but one, and fails every reflection. */
  function BusyBut(idle: int): Inputs {
    n => if n == idle then IDLE else BUSY
  }

  datatype Place = Place(node: Node, iterations: nat)

  /**
   The route depends on the counter and two bits: whether the reply calls tools, and whether the reflection
   reads as failed.
   */
  function Move(g: Graph, p: Place, calls: bool, fails: bool): Place {
    var i := p.iterations + 1;
    match p.node
    case Planner => Place(Llm, i)
    case Llm =>
      Place(if g.mode == Simple then End
            else if calls && i < g.maxIterations then Tools
            else if g.mode == React then End
            else Reflect, i)
    case Tools => Place(Llm, p.iterations)
    case Reflect =>
      Place(if !fails || i >= g.maxIterations then End
            else if g.mode == PlanAndExecute then Planner
            else Llm, i)
    case End => p
  }

  ghost function PlaceOf(s: State): Place {
    Place(s.node, s.iterations)
  }

  lemma StepMoves(g: Graph, s: State, x: Input)
    ensures PlaceOf(Step(g, s, x)) == Move(g, PlaceOf(s), x.toolCalls != [], Mentions(g.upper, Content(x.verdict)))
  {
  }

  function BusyPlace(g: Graph, idle: int, n: nat): Place {
    if n == 0 then Place(if g.mode == PlanAndExecute then Planner else Llm, 0)
    else Move(g, BusyPlace(g, idle, n - 1), n - 1 != idle, true)
  }

  lemma FailedIsRead(upper: char -> string)
    requires AsciiUpper(upper)
    ensures Mentions(upper, Content(FAILED))
  {
    FailureIsRead(upper, FAILED);
  }

  lemma {:induction false} BusyRuns(g: Graph, messages: seq<Message>, idle: int, n: nat)
    requires AsciiUpper(g.upper)
    ensures PlaceOf(Run(g, messages, BusyBut(idle), n)) == BusyPlace(g, idle, n)
  {
    if n == 0 {
    } else {
      BusyRuns(g, messages, idle, n - 1);
      FailedIsRead(g.upper);
      StepMoves(g, Run(g, messages, BusyBut(idle), n - 1), BusyBut(idle)(n - 1));
    }
  }

  /** In the react shapes the `j`-th pair of steps calls the model and then a tool. */
  lemma {:induction false} BusyReact(g: Graph, j: nat)
    requires (g.mode == React || g.mode == ReactReflect) && j < Cap(g)
    ensures BusyPlace(g, -1, 2 * j) == Place(Llm, j)
  {
    if j == 0 {
    } else {
      BusyReact(g, j - 1);
      assert BusyPlace(g, -1, 2 * j - 1) == Place(Tools, j);
    }
  }

  /** In plan-and-execute mode the planner's step comes first. */
  lemma {:induction false} BusyPlan(g: Graph, idle: int, j: nat)
    requires g.mode == PlanAndExecute && 1 <= j && (j == 1 || j < Cap(g)) && (idle < 0 || 2 * j - 1 <= idle)
    ensures BusyPlace(g, idle, 2 * j - 1) == Place(Llm, j)
  {
    if j == 1 {
      assert BusyPlace(g, idle, 0) == Place(Planner, 0);
    } else {
      BusyPlan(g, idle, j - 1);
      assert BusyPlace(g, idle, 2 * j - 2) == Place(Tools, j);
    }
  }

  /** The step in which the longest run asks for no tool; a negative number for none. */
  function BusyIdle(g: Graph): int {
    if g.mode == PlanAndExecute && Cap(g) >= 4 then 2 * Cap(g) - 7 else -1
  }

  /**
   With four or more iterations the worst plan spends all but two of them before its first
   reflection, replans with one left, and so plans, executes and reflects past the limit.
   */
  lemma LongPlanAttains(g: Graph)
    requires g.mode == PlanAndExecute && Cap(g) >= 4
    ensures BusyPlace(g, BusyIdle(g), 2 * Cap(g) - 2) == Place(End, Most(g))
  {
    var cap := Cap(g);
    var n := 2 * cap - 7;
    BusyPlan(g, n, cap - 3);
    assert BusyPlace(g, n, n + 1) == Place(Reflect, cap - 2);
    assert BusyPlace(g, n, n + 2) == Place(Planner, cap - 1);
    assert BusyPlace(g, n, n + 3) == Place(Llm, cap);
    assert BusyPlace(g, n, n + 4) == Place(Reflect, cap + 1);
  }

  lemma ShortPlanAttains(g: Graph)
    requires g.mode == PlanAndExecute && Cap(g) < 4
    ensures exists n: nat :: BusyPlace(g, -1, n) == Place(End, Most(g))
  {
    var j := if Cap(g) == 1 then 1 else Cap(g) - 1;
    BusyPlan(g, -1, j);
    assert BusyPlace(g, -1, 2 * j) == Place(Reflect, j + 1);
    assert BusyPlace(g, -1, 2 * j + 1) == Place(End, j + 2);
  }

  lemma ReactAttains(g: Graph)
    requires g.mode == React || g.mode == ReactReflect
    ensures exists n: nat :: BusyPlace(g, -1, n) == Place(End, Most(g))
  {
    var cap := Cap(g);
    BusyReact(g, cap - 1);
    assert BusyPlace(g, -1, 2 * cap - 1) == Place(if g.mode == React then End else Reflect, cap);
    if g.mode == ReactReflect {
      assert BusyPlace(g, -1, 2 * cap) == Place(End, cap + 1);
    }
  }

  /** No smaller bound holds: in every shape some run ends showing exactly `Most` iterations. */
  lemma MostIsAttained(g: Graph, messages: seq<Message>)
    requires AsciiUpper(g.upper)
    ensures exists n: nat :: PlaceOf(Run(g, messages, BusyBut(BusyIdle(g)), n)) == Place(End, Most(g))
  {
    match g.mode {
      case Simple => assert BusyPlace(g, -1, 1) == Place(End, 1) by { assert BusyPlace(g, -1, 0) == Place(Llm, 0); }
      case React => ReactAttains(g);
      case ReactReflect => ReactAttains(g);
      case PlanAndExecute => if Cap(g) < 4 { ShortPlanAttains(g); } else { LongPlanAttains(g); }
    }
    var n: nat :| BusyPlace(g, BusyIdle(g), n) == Place(End, Most(g));
    BusyRuns(g, messages, BusyIdle(g), n);
  }

  // ---- What a run does to the messages ----

  /** What one step appends: one tool message per result, in order, or one assistant message. */
  ghost predicate Appends(s: State, x: Input, more: seq<Message>) {
    match s.node
    case Tools => |more| == |x.results| && forall i :: 0 <= i < |more| ==> more[i] == Tool(x.results[i])
    case Reflect => more == [Ai(Content(x.verdict), [])]
    case End => more == []
    case _ => more == [Ai(x.reply, x.toolCalls)]
  }

  lemma {:induction false} ToolMessagesInOrder(results: seq<string>)
    ensures |ToolMessages(results)| == |results|
    ensures forall i :: 0 <= i < |results| ==> ToolMessages(results)[i] == Tool(results[i])
  {
    if results == [] {
    } else {
      ToolMessagesInOrder(results[1..]);
    }
  }

  /** Each step appends what its node was answered, nothing else, and counts it unless it is the tools'. */
  lemma StepAppends(g: Graph, s: State, x: Input)
    ensures var t := Step(g, s, x);
      && s.messages <= t.messages && Appends(s, x, t.messages[|s.messages|..])
      && t.iterations == s.iterations + if s.node == Tools || s.node == End then 0 else 1
  {
    ToolMessagesInOrder(x.results);
  }

  /** Messages are only ever appended. */
  lemma {:induction false} MessagesOnlyGrow(g: Graph, messages: seq<Message>, inputs: Inputs, m: nat, n: nat)
    requires m <= n
    ensures Run(g, messages, inputs, m).messages <= Run(g, messages, inputs, n).messages
  {
    if m < n {
      MessagesOnlyGrow(g, messages, inputs, m, n - 1);
      var s := Run(g, messages, inputs, n - 1);
      assert s.messages <= Step(g, s, inputs(n - 1)).messages;
    }
  }

  function AiCount(messages: seq<Message>): nat {
    if messages == [] then 0 else (if messages[0].Ai? then 1 else 0) + AiCount(messages[1..])
  }

  lemma {:induction false} AiCountConcat(a: seq<Message>, b: seq<Message>)
    ensures AiCount(a + b) == AiCount(a) + AiCount(b)
  {
    if a == [] {
      assert a + b == b;
    } else {
      assert (a + b)[1..] == a[1..] + b;
      AiCountConcat(a[1..], b);
    }
  }

  lemma {:induction false} NoAiFromTools(results: seq<string>)
    ensures AiCount(ToolMessages(results)) == 0
  {
    if results == [] {
    } else {
      NoAiFromTools(results[1..]);
      assert ToolMessages(results)[1..] == ToolMessages(results[1..]);
    }
  }

  /** The iteration counter counts the assistant messages the graph appended: no loop escapes it. */
  lemma {:induction false} IterationsCountReplies(g: Graph, messages: seq<Message>, inputs: Inputs, n: nat)
    ensures AiCount(Run(g, messages, inputs, n).messages) == AiCount(messages) + Run(g, messages, inputs, n).iterations
  {
    if n == 0 {
    } else {
      IterationsCountReplies(g, messages, inputs, n - 1);
      var s, x := Run(g, messages, inputs, n - 1), inputs(n - 1);
      match s.node {
        case Planner => AiCountConcat(s.messages, [Ai(x.reply, x.toolCalls)]);
        case Llm => AiCountConcat(s.messages, [Ai(x.reply, x.toolCalls)]);
        case Tools => AiCountConcat(s.messages, ToolMessages(x.results)); NoAiFromTools(x.results);
        case Reflect => AiCountConcat(s.messages, [Ai(Content(x.verdict), [])]);
        case End =>
      }
    }
  }

  /** In simple mode the run is one call of the model. */
  lemma {:induction false} SimpleCallsOnce(g: Graph, messages: seq<Message>, inputs: Inputs, n: nat)
    requires g.mode == Simple && n >= 1
    ensures Run(g, messages, inputs, n) == State(End, messages + [Ai(inputs(0).reply, inputs(0).toolCalls)], 1)
  {
    if n > 1 {
      SimpleCallsOnce(g, messages, inputs, n - 1);
    } else {
      assert Run(g, messages, inputs, 0) == Entry(g, messages);
    }
  }

  // ---- When a reflection starts over ----

  /** Exactly when a reflection with iterations left sends the run back instead of ending it. */
  lemma ReplansExactly(g: Graph, s: State, x: Input)
    requires AsciiUpper(g.upper) && s.node == Reflect
    ensures Step(g, s, x).node != End <==>
            && s.iterations + 1 < g.maxIterations
            && (!x.verdict.isSuccessful
                || Mentions(g.upper, x.verdict.critique)
                || AnyMentions(g.upper, x.verdict.missing) || AnyMentions(g.upper, x.verdict.steps))
  {
    FailureIsRead(g.upper, x.verdict);
  }

  /** The reflector's own fallback verdict, meant to let the run end, starts it over while iterations are left. */
  lemma FallbackStartsOver(g: Graph, s: State, x: Input, error: string)
    requires AsciiUpper(g.upper) && s.node == Reflect && x.verdict == Fallback(error)
    ensures Step(g, s, x).node != End <==> s.iterations + 1 < g.maxIterations
  {
    FallbackReadsAsFailure(g.upper, error);
  }
}
