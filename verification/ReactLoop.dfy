/** The plan-act loop that answers one user turn. */
module ReactLoop {
  import opened Wrappers

  datatype Usage = Usage(prompt: int, completion: int, total: int, cached: int, thoughts: int, toolUse: int)

  const ZERO := Usage(0, 0, 0, 0, 0, 0)

  function Add(a: Usage, b: Usage): Usage {
    Usage(a.prompt + b.prompt, a.completion + b.completion, a.total + b.total,
          a.cached + b.cached, a.thoughts + b.thoughts, a.toolUse + b.toolUse)
  }

  /** The tool names the loop itself knows, and all others. */
  datatype ToolName = VmStart | VmCreate | VmExecuteCommand | PlanAnnounce | Other(name: string)

  /** Texts by the way they are formatted; a tool's own texts are plain. */
  datatype Message = Text(text: string) | NotAllowed(tool: ToolName) | NotRegistered(tool: ToolName) | ErrorOf(cause: Message)

  const BLANK := Text("")

  /** A tool's payload: anything, or an object with perhaps some entries the loop reads and a JSON text. */
  datatype Payload =
    | Opaque
    | Object(environment: Option<string>, output: Option<string>, summary: Option<string>, json: Option<string>)

  /** A call's arguments: the command, if that entry is a string, and all the others. */
  datatype Arguments = Arguments(command: Option<string>, others: map<string, string>)

  datatype ToolStep = ToolStep(name: ToolName, arguments: Arguments)

  datatype ToolCall = ToolCall(id: string, name: ToolName, arguments: Arguments)

  datatype ToolResult = ToolResult(callId: string, toolName: Option<ToolName>, ok: bool, payload: Payload, error: Message)

  /** What a tool hands back: a result and possibly an error message. */
  datatype Returned = Returned(result: ToolResult, err: Option<Message>)

  datatype Meta = Meta(reasoning: string, thinking: string, answer: string, usage: Usage)

  datatype Planned = Planned(steps: seq<ToolStep>, meta: Meta)

  datatype PriorTurn = PriorTurn(call: ToolStep, result: ToolResult)

  datatype Input = Input(chat: string, message: string, hint: string, emits: bool)

  datatype PlanRequest = PlanRequest(message: string, hint: string, prior: seq<PriorTurn>)

  datatype FinalRequest = FinalRequest(message: string, hint: string, steps: seq<ToolStep>, results: seq<ToolResult>)

  datatype Final = Final(assistant: string, reasoning: string, thinking: string, usage: Usage)

  datatype TraceStep = TraceStep(step: nat, reasoning: string, tool: ToolName, arguments: Arguments, observation: Message, success: bool, error: Message)

  datatype Trace = Trace(reasoning: string, steps: seq<TraceStep>, answer: string, usage: Usage)

  datatype ProcessResult = ProcessResult(results: seq<ToolResult>, assistant: string, trace: Trace)

  datatype Event =
    | Thinking(step: nat, data: string)
    | Answer(step: nat, data: string)
    | Plan(step: nat, data: string)
    | Called(step: nat, result: Message, error: Message, tool: ToolName, arguments: Arguments, command: string)
    | Token(data: string, usage: Option<Usage>)

  /**
   * Everything outside the loop. The planner and the tools are told how many calls came
   * before, so they may keep state of their own.
   */
  datatype Env = Env(
    planner: (nat, PlanRequest) -> Result<Planned>,
    finisher: FinalRequest -> Result<Final>,
    withMetadata: bool,
    allowed: set<ToolName>,
    registered: set<ToolName>,
    tool: (nat, ToolCall) -> Returned,
    callId: nat -> string,
    maxSteps: nat,
    saves: bool)

  function DefaultSteps(configured: int): (n: nat)
    ensures n > 0
  {
    if configured <= 0 then 70 else configured
  }

  /** A missing entry reads as the empty string. */
  function Lookup(entry: Option<string>): string {
    if entry.Some? then entry.value else ""
  }

  // ------------------------------------------------------------------ one tool call

  predicate Allowed(env: Env, name: ToolName) {
    env.allowed == {} || name in env.allowed
  }

  predicate Runs(env: Env, name: ToolName) {
    Allowed(env, name) && name in env.registered
  }

  function CallOf(env: Env, k: nat, step: ToolStep): ToolCall {
    ToolCall(env.callId(k), step.name, step.arguments)
  }

  /** The result of the k-th tool call. */
  function Outcome(env: Env, k: nat, step: ToolStep): ToolResult {
    if !Allowed(env, step.name) then
      ToolResult("", Some(step.name), false, Opaque, NotAllowed(step.name))
    else if step.name !in env.registered then
      ToolResult("", Some(step.name), false, Opaque, NotRegistered(step.name))
    else
      var out := env.tool(k, CallOf(env, k, step));
      ToolResult(
        if out.result.callId == "" then env.callId(k) else out.result.callId,
        if out.result.toolName.None? then Some(step.name) else out.result.toolName,
        out.result.ok && out.err.None?,
        out.result.payload,
        if out.err.Some? && out.result.error == BLANK then out.err.value else out.result.error)
  }

  /** Who may run, and what comes of a call: refusals by name, errors of the tool never ok. */
  lemma {:induction false} OutcomeIs(env: Env, k: nat, step: ToolStep)
    ensures Runs(env, step.name) <==> (env.allowed == {} || step.name in env.allowed) && step.name in env.registered
    ensures CallOf(env, k, step) == ToolCall(env.callId(k), step.name, step.arguments)
    ensures var result := Outcome(env, k, step);
            if env.allowed != {} && step.name !in env.allowed then !result.ok && result.error == NotAllowed(step.name)
            else if step.name !in env.registered then !result.ok && result.error == NotRegistered(step.name)
            else
              var out := env.tool(k, ToolCall(env.callId(k), step.name, step.arguments));
              && (result.ok <==> out.result.ok && out.err == None) && result.payload == out.result.payload
              && (out.err.Some? && out.result.error == Text("") ==> result.error == out.err.value)
              && (out.err.None? || out.result.error != Text("") ==> result.error == out.result.error)
              && (out.result.callId == "" ==> result.callId == env.callId(k)) && (out.result.callId != "" ==> result.callId == out.result.callId)
              && (out.result.toolName == None ==> result.toolName == Some(step.name))
              && (out.result.toolName != None ==> result.toolName == out.result.toolName)
  {
  }

  // ------------------------------------------------------------------ runs

  /** One round: what the planner said, the call made and its result. */
  datatype Turn = Turn(meta: Meta, call: ToolStep, result: ToolResult)

  const NO_META := Meta("", "", "", ZERO)

  function Prior(turns: seq<Turn>): seq<PriorTurn> {
    if turns == [] then [] else Prior(turns[..|turns| - 1]) + [PriorTurn(turns[|turns| - 1].call, turns[|turns| - 1].result)]
  }

  function Calls(turns: seq<Turn>): seq<ToolStep> {
    if turns == [] then [] else Calls(turns[..|turns| - 1]) + [turns[|turns| - 1].call]
  }

  function Results(turns: seq<Turn>): seq<ToolResult> {
    if turns == [] then [] else Results(turns[..|turns| - 1]) + [turns[|turns| - 1].result]
  }

  /** The environment a result announces, if any. */
  function HintOf(call: ToolStep, result: ToolResult, hint: string): string {
    if result.ok && (call.name.VmStart? || call.name.VmCreate?) && result.payload.Object? && Lookup(result.payload.environment) != ""
    then Lookup(result.payload.environment)
    else hint
  }

  function HintAfter(hint: string, turns: seq<Turn>): string {
    if turns == [] then hint
    else
      var last := turns[|turns| - 1];
      HintOf(last.call, last.result, HintAfter(hint, turns[..|turns| - 1]))
  }

  /** The planner's answer once these turns have been taken. */
  function Asked(env: Env, input: Input, turns: seq<Turn>): Result<Planned> {
    var answer := env.planner(|turns|, PlanRequest(input.message, HintAfter(input.hint, turns), Prior(turns)));
    if answer.Err? || env.withMetadata then answer
    else Ok(Planned(answer.value.steps, NO_META))
  }

  /** The turn after these: the first step of the plan made from them. */
  function NextTurn(env: Env, input: Input, turns: seq<Turn>): Option<Turn> {
    var plan := Asked(env, input, turns);
    if plan.Err? || plan.value.steps == [] then None
    else Some(Turn(plan.value.meta, plan.value.steps[0], Outcome(env, |turns|, plan.value.steps[0])))
  }

  ghost predicate IsRun(env: Env, input: Input, turns: seq<Turn>) {
    forall i :: 0 <= i < |turns| ==> NextTurn(env, input, turns[..i]) == Some(turns[i])
  }

  lemma {:induction false} RunGrows(env: Env, input: Input, turns: seq<Turn>, t: Turn)
    requires IsRun(env, input, turns) && NextTurn(env, input, turns) == Some(t)
    ensures IsRun(env, input, turns + [t])
  {
    var longer := turns + [t];
    forall i | 0 <= i < |longer|
      ensures NextTurn(env, input, longer[..i]) == Some(longer[i])
    {
      assert longer[..i] == turns[..i];
      assert turns[..|turns|] == turns;
    }
  }

  /** The planner wants no further tool, or no step is left. */
  predicate Finished(env: Env, input: Input, turns: seq<Turn>) {
    |turns| == env.maxSteps || (Asked(env, input, turns).Ok? && Asked(env, input, turns).value.steps == [])
  }

  predicate Stuck(env: Env, input: Input, turns: seq<Turn>) {
    |turns| < env.maxSteps && Asked(env, input, turns).Err?
  }

  ghost predicate IsWhole(env: Env, input: Input, turns: seq<Turn>) {
    IsRun(env, input, turns) && |turns| <= env.maxSteps && (Finished(env, input, turns) || Stuck(env, input, turns))
  }

  lemma {:induction false} WholeHasNoNext(env: Env, input: Input, turns: seq<Turn>)
    requires IsWhole(env, input, turns)
    ensures |turns| == env.maxSteps || NextTurn(env, input, turns).None?
  {
  }

  lemma {:induction false} ShorterRunIsSame(env: Env, input: Input, a: seq<Turn>, b: seq<Turn>)
    requires IsWhole(env, input, a) && IsWhole(env, input, b) && |a| <= |b|
    ensures a == b
  {
    SameRule(ts => NextTurn(env, input, ts), a, b, |a|);
    WholeHasNoNext(env, input, a);
    assert a == a[..|a|] && b == b[..|b|];
  }

  /** The planner, the tools and the input determine the turns taken. */
  lemma {:induction false} RunIsUnique(env: Env, input: Input, a: seq<Turn>, b: seq<Turn>)
    requires IsWhole(env, input, a) && IsWhole(env, input, b)
    ensures a == b
  {
    if |a| <= |b| {
      ShorterRunIsSame(env, input, a, b);
    } else {
      ShorterRunIsSame(env, input, b, a);
    }
  }

  /** Two sequences that grow by the same rule agree as far as both go. */
  lemma {:induction false} SameRule(next: seq<Turn> -> Option<Turn>, a: seq<Turn>, b: seq<Turn>, n: nat)
    requires n <= |a| && n <= |b|
    requires forall i :: 0 <= i < n ==> next(a[..i]) == Some(a[i]) && next(b[..i]) == Some(b[i])
    ensures a[..n] == b[..n]
  {
    if n > 0 {
      SameRule(next, a, b, n - 1);
      assert a[..n] == a[..n - 1] + [a[n - 1]];
      assert b[..n] == b[..n - 1] + [b[n - 1]];
    }
  }

  // ------------------------------------------------------------------ token accounting

  function Planning(turns: seq<Turn>): seq<Usage> {
    if turns == [] then [] else Planning(turns[..|turns| - 1]) + [turns[|turns| - 1].meta.usage]
  }

  /** What every planner call of the loop cost, in order. */
  function Spent(env: Env, input: Input, turns: seq<Turn>): seq<Usage> {
    if |turns| < env.maxSteps && Asked(env, input, turns).Ok?
    then Planning(turns) + [Asked(env, input, turns).value.meta.usage]
    else Planning(turns)
  }

  function Total(spent: seq<Usage>): Usage {
    if spent == [] then ZERO else Add(Total(spent[..|spent| - 1]), spent[|spent| - 1])
  }

  function Sum(s: seq<int>): int {
    if s == [] then 0 else s[0] + Sum(s[1..])
  }

  function Column(spent: seq<Usage>, f: Usage -> int): seq<int> {
    seq(|spent|, i requires 0 <= i < |spent| => f(spent[i]))
  }

  lemma {:induction false} SumSnoc(s: seq<int>, x: int)
    ensures Sum(s + [x]) == Sum(s) + x
  {
    if s == [] {
      assert s + [x] == [x];
    } else {
      assert (s + [x])[1..] == s[1..] + [x];
      SumSnoc(s[1..], x);
    }
  }

  /** A counter that is additive adds up over all the calls. */
  lemma {:induction false} TotalIsFieldwise(spent: seq<Usage>, f: Usage -> int)
    requires f(ZERO) == 0 && forall a, b :: f(Add(a, b)) == f(a) + f(b)
    ensures f(Total(spent)) == Sum(Column(spent, f))
  {
    if spent != [] {
      var init := spent[..|spent| - 1];
      TotalIsFieldwise(init, f);
      assert Column(spent, f) == Column(init, f) + [f(spent[|spent| - 1])];
      SumSnoc(Column(init, f), f(spent[|spent| - 1]));
    }
  }

  /** The usage of a turn is the sum of its calls, counter by counter. */
  lemma {:induction false} UsageIsTheSum(spent: seq<Usage>)
    ensures Total(spent).prompt == Sum(Column(spent, (u: Usage) => u.prompt))
    ensures Total(spent).completion == Sum(Column(spent, (u: Usage) => u.completion))
    ensures Total(spent).total == Sum(Column(spent, (u: Usage) => u.total))
    ensures Total(spent).cached == Sum(Column(spent, (u: Usage) => u.cached))
    ensures Total(spent).thoughts == Sum(Column(spent, (u: Usage) => u.thoughts))
    ensures Total(spent).toolUse == Sum(Column(spent, (u: Usage) => u.toolUse))
  {
    TotalIsFieldwise(spent, (u: Usage) => u.prompt);
    TotalIsFieldwise(spent, (u: Usage) => u.completion);
    TotalIsFieldwise(spent, (u: Usage) => u.total);
    TotalIsFieldwise(spent, (u: Usage) => u.cached);
    TotalIsFieldwise(spent, (u: Usage) => u.thoughts);
    TotalIsFieldwise(spent, (u: Usage) => u.toolUse);
  }

  // ------------------------------------------------------------------ trace and events

  function Observation(result: ToolResult): Message {
    var seen :=
      if result.payload.Opaque? then BLANK
      else if result.payload.output.Some? then Text(result.payload.output.value)
      else Text(Lookup(result.payload.json));
    if seen == BLANK && result.error != BLANK then ErrorOf(result.error) else seen
  }

  /** What is seen of a result: its output, else its JSON, else its error. */
  lemma {:induction false} ObservationIs(result: ToolResult)
    ensures result.payload.Object? && result.payload.output.Some? && result.payload.output.value != "" ==>
              Observation(result) == Text(result.payload.output.value)
    ensures result.payload.Object? && result.payload.output.None? && result.payload.json.Some? && result.payload.json.value != "" ==>
              Observation(result) == Text(result.payload.json.value)
    ensures result.payload.Opaque? ==> Observation(result) == if result.error != Text("") then ErrorOf(result.error) else Text("")
  {
  }

  function TraceOf(step: nat, t: Turn): TraceStep {
    TraceStep(step, t.meta.reasoning, t.call.name, t.call.arguments, Observation(t.result), t.result.ok, t.result.error)
  }

  function TraceSteps(turns: seq<Turn>): seq<TraceStep> {
    if turns == [] then [] else TraceSteps(turns[..|turns| - 1]) + [TraceOf(|turns|, turns[|turns| - 1])]
  }

  predicate Announces(t: Turn) {
    t.call.name.PlanAnnounce? && t.result.ok && t.result.payload.Object?
  }

  function CalledEvent(step: nat, t: Turn): Event {
    Called(step, Observation(t.result), t.result.error, t.call.name, t.call.arguments,
           if t.call.name.VmExecuteCommand? then Lookup(t.call.arguments.command) else "")
  }

  function Thoughts(step: nat, meta: Meta): seq<Event> {
    (if meta.thinking != "" then [Thinking(step, meta.thinking)] else [])
    + (if meta.answer != "" then [Answer(step, meta.answer)] else [])
  }

  function Actions(step: nat, t: Turn): seq<Event> {
    (if Announces(t) then [Plan(step, Lookup(t.result.payload.summary))] else []) + [CalledEvent(step, t)]
  }

  function EventsOf(turns: seq<Turn>): seq<Event> {
    if turns == [] then []
    else
      var n := |turns|;
      EventsOf(turns[..n - 1]) + Thoughts(n, turns[n - 1].meta) + Actions(n, turns[n - 1])
  }

  function LastReasoning(turns: seq<Turn>): string {
    if turns == [] then ""
    else if turns[|turns| - 1].meta.reasoning != "" then turns[|turns| - 1].meta.reasoning
    else LastReasoning(turns[..|turns| - 1])
  }

  function Finale(turns: seq<Turn>, final: Final, usage: Usage): seq<Event> {
    (if final.thinking != "" then [Thinking(|turns| + 1, final.thinking)] else [])
    + [Token(final.assistant, if usage == ZERO then None else Some(usage))]
  }

  /** The tool_call events of a stream, in order. */
  function CalledOf(events: seq<Event>): seq<Event> {
    if events == [] then []
    else CalledOf(events[..|events| - 1]) + (if events[|events| - 1].Called? then [events[|events| - 1]] else [])
  }

  lemma {:induction false} CalledOfConcat(a: seq<Event>, b: seq<Event>)
    ensures CalledOf(a + b) == CalledOf(a) + CalledOf(b)
  {
    if b == [] {
      assert a + b == a;
    } else {
      assert (a + b)[..|a + b| - 1] == a + b[..|b| - 1];
      CalledOfConcat(a, b[..|b| - 1]);
    }
  }

  ghost predicate PlanJustBeforeCall(events: seq<Event>) {
    forall k :: 0 <= k < |events| && events[k].Plan? ==>
      k + 1 < |events| && events[k + 1].Called? && events[k + 1].step == events[k].step && events[k + 1].tool.PlanAnnounce?
  }

  lemma {:induction false} PlanJustBeforeCallConcat(a: seq<Event>, b: seq<Event>)
    requires PlanJustBeforeCall(a) && PlanJustBeforeCall(b)
    ensures PlanJustBeforeCall(a + b)
  {
    forall k | 0 <= k < |a + b| && (a + b)[k].Plan?
      ensures k + 1 < |a + b| && (a + b)[k + 1].Called? && (a + b)[k + 1].step == (a + b)[k].step && (a + b)[k + 1].tool.PlanAnnounce?
    {
      if k < |a| {
        assert a[k].Plan?;
      } else {
        assert b[k - |a|].Plan?;
      }
    }
  }

  function CalledEvents(turns: seq<Turn>): seq<Event> {
    if turns == [] then [] else CalledEvents(turns[..|turns| - 1]) + [CalledEvent(|turns|, turns[|turns| - 1])]
  }

  lemma {:induction false} CalledOfStep(before: seq<Event>, step: nat, t: Turn)
    ensures CalledOf(before + Thoughts(step, t.meta) + Actions(step, t)) == CalledOf(before) + [CalledEvent(step, t)]
  {
    CalledOfConcat(before + Thoughts(step, t.meta), Actions(step, t));
    CalledOfConcat(before, Thoughts(step, t.meta));
    NoCallInThoughts(step, t.meta);
    OneCallInActions(step, t);
  }

  /** Exactly one tool_call event per step, in order. */
  lemma {:induction false} EveryStepEmitsOneCall(turns: seq<Turn>)
    ensures CalledOf(EventsOf(turns)) == CalledEvents(turns)
  {
    if turns != [] {
      var n := |turns|;
      EveryStepEmitsOneCall(turns[..n - 1]);
      CalledOfStep(EventsOf(turns[..n - 1]), n, turns[n - 1]);
    }
  }

  /** A plan event comes only just before the tool_call event of its own step. */
  lemma {:induction false} PlanPrecedesItsCall(turns: seq<Turn>)
    ensures PlanJustBeforeCall(EventsOf(turns))
  {
    if turns != [] {
      var n := |turns|;
      var init, last := turns[..n - 1], turns[n - 1];
      PlanPrecedesItsCall(init);
      PlanJustBeforeCallConcat(EventsOf(init), Thoughts(n, last.meta));
      PlanJustBeforeCallConcat(EventsOf(init) + Thoughts(n, last.meta), Actions(n, last));
    }
  }

  ghost predicate NoToken(events: seq<Event>) {
    forall k :: 0 <= k < |events| ==> !events[k].Token?
  }

  lemma {:induction false} NoTokenInSteps(turns: seq<Turn>)
    ensures NoToken(EventsOf(turns))
  {
    if turns != [] {
      var n := |turns|;
      NoTokenInSteps(turns[..n - 1]);
      assert NoToken(Thoughts(n, turns[n - 1].meta)) && NoToken(Actions(n, turns[n - 1]));
    }
  }

  lemma {:induction false} NoCallInThoughts(step: nat, meta: Meta)
    ensures CalledOf(Thoughts(step, meta)) == []
  {
    var a := if meta.thinking != "" then [Thinking(step, meta.thinking)] else [];
    var b := if meta.answer != "" then [Answer(step, meta.answer)] else [];
    CalledOfConcat(a, b);
  }

  lemma {:induction false} OneCallInActions(step: nat, t: Turn)
    ensures CalledOf(Actions(step, t)) == [CalledEvent(step, t)]
  {
    var a := if Announces(t) then [Plan(step, Lookup(t.result.payload.summary))] else [];
    CalledOfConcat(a, [CalledEvent(step, t)]);
  }

  /** Results, prior turns, executed steps, trace steps and tool_call events: one for each turn, numbered from 1. */
  lemma {:induction false} RecordsMatchTurns(turns: seq<Turn>, i: nat)
    requires i < |turns|
    ensures |Prior(turns)| == |Calls(turns)| == |Results(turns)| == |Planning(turns)| == |TraceSteps(turns)| == |CalledEvents(turns)| == |turns|
    ensures Prior(turns)[i] == PriorTurn(turns[i].call, turns[i].result)
    ensures Calls(turns)[i] == turns[i].call && Results(turns)[i] == turns[i].result
    ensures Planning(turns)[i] == turns[i].meta.usage
    ensures TraceSteps(turns)[i] == TraceOf(i + 1, turns[i])
    ensures CalledEvents(turns)[i] == CalledEvent(i + 1, turns[i])
  {
    if |turns| > 1 {
      RecordsMatchTurns(turns[..|turns| - 1], if i < |turns| - 1 then i else 0);
    }
  }

  /** Over a whole successful turn: one tool_call event per step, any plan event just before its own. */
  lemma {:induction false} WholeStreamShowsEachCall(turns: seq<Turn>, final: Final, usage: Usage)
    ensures CalledOf(EventsOf(turns) + Finale(turns, final, usage)) == CalledEvents(turns)
    ensures PlanJustBeforeCall(EventsOf(turns) + Finale(turns, final, usage))
  {
    var steps, finale := EventsOf(turns), Finale(turns, final, usage);
    PlanPrecedesItsCall(turns);
    EveryStepEmitsOneCall(turns);
    FinaleIsQuiet(turns, final, usage);
    PlanJustBeforeCallConcat(steps, finale);
    CalledOfConcat(steps, finale);
  }

  /** One token event, carrying the answer and the usage, ends the stream. */
  lemma {:induction false} TokenEndsTheStream(turns: seq<Turn>, final: Final, usage: Usage)
    ensures
      var stream := EventsOf(turns) + Finale(turns, final, usage);
      && stream[|stream| - 1] == Token(final.assistant, if usage == ZERO then None else Some(usage))
      && NoToken(stream[..|stream| - 1])
  {
    var steps, finale := EventsOf(turns), Finale(turns, final, usage);
    NoTokenInSteps(turns);
    FinaleIsQuiet(turns, final, usage);
    assert (steps + finale)[..|steps + finale| - 1] == steps + finale[..|finale| - 1];
  }

  lemma {:induction false} FinaleIsQuiet(turns: seq<Turn>, final: Final, usage: Usage)
    ensures var finale := Finale(turns, final, usage);
      CalledOf(finale) == [] && PlanJustBeforeCall(finale) && NoToken(finale[..|finale| - 1])
  {
    var finale := Finale(turns, final, usage);
    var thought, token := finale[..|finale| - 1], finale[|finale| - 1];
    assert finale == thought + [token];
    CalledOfConcat(thought, [token]);
  }

  // ------------------------------------------------------------------ policy

  /** The tools actually executed during these turns. */
  function Executed(env: Env, turns: seq<Turn>): seq<ToolCall> {
    if turns == [] then []
    else
      var n := |turns| - 1;
      Executed(env, turns[..n]) + (if Runs(env, turns[n].call.name) then [CallOf(env, n, turns[n].call)] else [])
  }

  /** Only registered tools run, and with an allow-list only those on it. */
  lemma {:induction false} OnlyAllowedToolsRun(env: Env, turns: seq<Turn>)
    ensures forall c :: c in Executed(env, turns) ==> c.name in env.registered && (env.allowed != {} ==> c.name in env.allowed)
  {
    if turns != [] {
      OnlyAllowedToolsRun(env, turns[..|turns| - 1]);
    }
  }

  /** A call that may not run fails with a message that is not blank. */
  lemma {:induction false} RefusedCallsFail(env: Env, input: Input, turns: seq<Turn>, i: nat)
    requires IsRun(env, input, turns) && i < |turns| && !Runs(env, turns[i].call.name)
    ensures !turns[i].result.ok && turns[i].result.error != BLANK
  {
    assert NextTurn(env, input, turns[..i]) == Some(turns[i]);
  }

  /** A call that may run was executed, after exactly the executions of the turns before it. */
  lemma {:induction false} PermittedCallsRun(env: Env, turns: seq<Turn>, i: nat)
    requires i < |turns| && Runs(env, turns[i].call.name)
    ensures Executed(env, turns[..i]) + [CallOf(env, i, turns[i].call)] <= Executed(env, turns)
    decreases |turns|
  {
    var n := |turns| - 1;
    if i < n {
      PermittedCallsRun(env, turns[..n], i);
      assert turns[..n][..i] == turns[..i];
    }
  }

  // ------------------------------------------------------------------ the loop

  /** The variables of the loop. */
  datatype Log = Log(hint: string, executedSteps: seq<ToolStep>, toolResults: seq<ToolResult>, priorTurns: seq<PriorTurn>,
                     reasoning: string, traceSteps: seq<TraceStep>, usage: Usage)

  function LogOf(input: Input, turns: seq<Turn>): Log {
    Log(HintAfter(input.hint, turns), Calls(turns), Results(turns), Prior(turns), LastReasoning(turns), TraceSteps(turns), Total(Planning(turns)))
  }

  /** What one more turn adds to each record. */
  lemma {:induction false} TurnAdds(hint: string, turns: seq<Turn>, t: Turn)
    ensures Calls(turns + [t]) == Calls(turns) + [t.call]
    ensures Results(turns + [t]) == Results(turns) + [t.result]
    ensures Prior(turns + [t]) == Prior(turns) + [PriorTurn(t.call, t.result)]
    ensures TraceSteps(turns + [t]) == TraceSteps(turns) + [TraceOf(|turns| + 1, t)]
    ensures HintAfter(hint, turns + [t]) == HintOf(t.call, t.result, HintAfter(hint, turns))
    ensures LastReasoning(turns + [t]) == if t.meta.reasoning != "" then t.meta.reasoning else LastReasoning(turns)
    ensures Total(Planning(turns + [t])) == Add(Total(Planning(turns)), t.meta.usage)
  {
    assert (turns + [t])[..|turns|] == turns;
    TotalSnoc(Planning(turns), t.meta.usage);
  }

  lemma {:induction false} LogLengths(input: Input, turns: seq<Turn>)
    ensures |LogOf(input, turns).executedSteps| == |LogOf(input, turns).traceSteps| == |turns|
  {
    if turns != [] {
      RecordsMatchTurns(turns, 0);
    }
  }

  lemma {:induction false} TotalSnoc(spent: seq<Usage>, u: Usage)
    ensures Total(spent + [u]) == Add(Total(spent), u)
  {
    assert (spent + [u])[..|spent|] == spent;
  }

  lemma {:induction false} SpentOnStopping(env: Env, input: Input, turns: seq<Turn>)
    requires |turns| < env.maxSteps && Asked(env, input, turns).Ok?
    ensures Total(Spent(env, input, turns)) == Add(Total(Planning(turns)), Asked(env, input, turns).value.meta.usage)
  {
    TotalSnoc(Planning(turns), Asked(env, input, turns).value.meta.usage);
  }

  /** Each turn carries out the first step of the plan that the planner made from the turns before it. */
  lemma {:induction false} TurnsFollowThePlanner(env: Env, input: Input, turns: seq<Turn>, i: nat)
    requires IsRun(env, input, turns) && i < |turns|
    ensures var answer := env.planner(i, PlanRequest(input.message, HintAfter(input.hint, turns[..i]), Prior(turns[..i])));
            && answer.Ok? && answer.value.steps != [] && turns[i].call == answer.value.steps[0]
            && turns[i].meta == (if env.withMetadata then answer.value.meta else Meta("", "", "", ZERO))
  {
    assert NextTurn(env, input, turns[..i]) == Some(turns[i]);
  }

  /** A run ends only at the bound, on a planner error, or when the planner wants no tool. */
  lemma {:induction false} EndsOnlyWhenDone(env: Env, input: Input, turns: seq<Turn>)
    requires IsWhole(env, input, turns)
    ensures var answer := env.planner(|turns|, PlanRequest(input.message, HintAfter(input.hint, turns), Prior(turns)));
            |turns| == env.maxSteps || answer.Err? || answer.value.steps == []
    ensures |turns| <= env.maxSteps
  {
  }

  ghost predicate NamesEnvironment(t: Turn) {
    t.result.ok && t.call.name in {VmStart, VmCreate} && t.result.payload.Object? && t.result.payload.environment.Some?
    && t.result.payload.environment.value != ""
  }

  /** The hint is the environment named last, or the one the turn began with. */
  lemma {:induction false} HintIsLastNamed(hint: string, turns: seq<Turn>)
    ensures if exists i :: 0 <= i < |turns| && NamesEnvironment(turns[i]) then
              exists i :: 0 <= i < |turns| && NamesEnvironment(turns[i]) && HintAfter(hint, turns) == turns[i].result.payload.environment.value
                          && forall j :: i < j < |turns| ==> !NamesEnvironment(turns[j])
            else HintAfter(hint, turns) == hint
  {
    if turns != [] {
      var n := |turns| - 1;
      HintIsLastNamed(hint, turns[..n]);
      assert forall i :: 0 <= i < n ==> turns[..n][i] == turns[i];
      if NamesEnvironment(turns[n]) {
        assert HintAfter(hint, turns) == turns[n].result.payload.environment.value;
      } else {
        assert HintAfter(hint, turns) == HintAfter(hint, turns[..n]);
      }
    }
  }

  /** The trace keeps the last reasoning that is not empty. */
  lemma {:induction false} ReasoningIsLast(turns: seq<Turn>)
    ensures if exists i :: 0 <= i < |turns| && turns[i].meta.reasoning != "" then
              exists i :: 0 <= i < |turns| && turns[i].meta.reasoning == LastReasoning(turns) != ""
                          && forall j :: i < j < |turns| ==> turns[j].meta.reasoning == ""
            else LastReasoning(turns) == ""
  {
    if turns != [] {
      var n := |turns| - 1;
      if turns[n].meta.reasoning != "" {
        assert turns[n].meta.reasoning == LastReasoning(turns);
      } else {
        ReasoningIsLast(turns[..n]);
        assert LastReasoning(turns) == LastReasoning(turns[..n]);
        assert forall i :: 0 <= i < n ==> turns[..n][i] == turns[i];
      }
    }
  }

  /** Thoughts and answers are shown exactly when not empty, a plan exactly for an announcement that went well. */
  lemma {:induction false} StepShows(step: nat, t: Turn, e: Event)
    ensures e in Thoughts(step, t.meta) <==>
              (t.meta.thinking != "" && e == Thinking(step, t.meta.thinking)) || (t.meta.answer != "" && e == Answer(step, t.meta.answer))
    ensures e.Plan? && e in Actions(step, t) <==>
              t.call.name == PlanAnnounce && t.result.ok && t.result.payload.Object? && e == Plan(step, Lookup(t.result.payload.summary))
    ensures CalledEvent(step, t).step == step && CalledEvent(step, t).tool == t.call.name && CalledEvent(step, t).arguments == t.call.arguments
    ensures CalledEvent(step, t).error == t.result.error && CalledEvent(step, t).result == Observation(t.result)
    ensures CalledEvent(step, t).command == if t.call.name == VmExecuteCommand then Lookup(t.call.arguments.command) else ""
  {
  }

  /** The end of the stream: the final thoughts, if any, as those of the step after the last, then the token. */
  lemma {:induction false} FinaleShows(turns: seq<Turn>, final: Final, usage: Usage)
    ensures final.thinking == "" ==> |Finale(turns, final, usage)| == 1
    ensures final.thinking != "" ==> |Finale(turns, final, usage)| == 2 && Finale(turns, final, usage)[0] == Thinking(|turns| + 1, final.thinking)
  {
  }

  /** A finished turn asked the planner once per step, and once more if it stopped early. */
  lemma {:induction false} PlannerCallsCounted(env: Env, input: Input, turns: seq<Turn>)
    requires |turns| <= env.maxSteps && Finished(env, input, turns)
    ensures |Spent(env, input, turns)| == if |turns| < env.maxSteps then |turns| + 1 else |turns|
    ensures forall i :: 0 <= i < |turns| ==> Spent(env, input, turns)[i] == turns[i].meta.usage
    ensures |turns| < env.maxSteps && env.withMetadata ==>
              var answer := env.planner(|turns|, PlanRequest(input.message, HintAfter(input.hint, turns), Prior(turns)));
              answer.Ok? && Spent(env, input, turns)[|turns|] == answer.value.meta.usage
  {
    if turns == [] {
      assert Planning(turns) == [];
    }
    forall i | 0 <= i < |turns|
      ensures |Planning(turns)| == |turns| && Planning(turns)[i] == turns[i].meta.usage
    {
      RecordsMatchTurns(turns, i);
    }
  }

  lemma {:induction false} StreamStart(env: Env)
    ensures EventsOf([]) == [] && Executed(env, []) == []
  {
  }

  lemma {:induction false} StreamNext(env: Env, turns: seq<Turn>, t: Turn)
    ensures EventsOf(turns + [t]) == EventsOf(turns) + Thoughts(|turns| + 1, t.meta) + Actions(|turns| + 1, t)
    ensures Executed(env, turns + [t]) == Executed(env, turns) + if Runs(env, t.call.name) then [CallOf(env, |turns|, t.call)] else []
  {
    assert (turns + [t])[..|turns|] == turns;
  }

  /** What a listening client has received. */
  function Heard(input: Input, stream: seq<Event>): seq<Event> {
    if input.emits then stream else []
  }

  lemma {:induction false} HeardInTurn(input: Input, heard: seq<Event>, a: seq<Event>, b: seq<Event>, c: seq<Event>)
    ensures heard + Heard(input, a) + Heard(input, b) + Heard(input, c) == heard + Heard(input, a + b + c)
  {
  }

  lemma {:induction false} HeardAtEnd(input: Input, heard: seq<Event>, a: seq<Event>, b: seq<Event>)
    ensures heard + Heard(input, a) + Heard(input, b) == heard + Heard(input, a + b)
  {
  }

  function FinalAnswer(env: Env, input: Input, turns: seq<Turn>): Result<Final> {
    var answer := env.finisher(FinalRequest(input.message, HintAfter(input.hint, turns), Calls(turns), Results(turns)));
    if answer.Err? || env.withMetadata then answer else Ok(Final(answer.value.assistant, "", "", ZERO))
  }

  /**
   * What a finished run leads to. A failing final answer or save is an error; otherwise results
   * and trace are those of the turns, the usage totals every call made, and the token event ends
   * the stream (also when the save fails).
   */
  ghost predicate Answered(env: Env, input: Input, turns: seq<Turn>, r: Result<ProcessResult>,
                           heard: seq<Event>, events: seq<Event>, saved: map<string, nat>, states: map<string, nat>)
  {
    match FinalAnswer(env, input, turns)
    case Err => r.Err? && events == heard + Heard(input, EventsOf(turns)) && states == saved
    case Ok(final) =>
      var usage := Total(Spent(env, input, turns) + [final.usage]);
      var reasoning := if final.reasoning != "" then final.reasoning else LastReasoning(turns);
      && events == heard + Heard(input, EventsOf(turns) + Finale(turns, final, usage))
      && states == (if env.saves then saved[input.chat := |turns|] else saved)
      && r == if env.saves
              then Ok(ProcessResult(Results(turns), final.assistant, Trace(reasoning, TraceSteps(turns), final.assistant, usage)))
              else Err
  }

  /** A turn succeeds if and only if the final answer and the save do; it is then answered as the planner says. */
  lemma {:induction false} SuccessIff(env: Env, input: Input, turns: seq<Turn>, r: Result<ProcessResult>,
                   heard: seq<Event>, events: seq<Event>, saved: map<string, nat>, states: map<string, nat>)
    requires Answered(env, input, turns, r, heard, events, saved, states)
    ensures var answer := env.finisher(FinalRequest(input.message, HintAfter(input.hint, turns), Calls(turns), Results(turns)));
            && (r.Ok? <==> answer.Ok? && env.saves)
            && (r.Ok? ==> r.value.assistant == r.value.trace.answer == answer.value.assistant
                          && r.value.results == Results(turns) && r.value.trace.steps == TraceSteps(turns)
                          && input.chat in states && states[input.chat] == |turns|)
            && (answer.Ok? ==>
                  var final := if env.withMetadata then answer.value else Final(answer.value.assistant, "", "", ZERO);
                  var usage := Total(Spent(env, input, turns) + [final.usage]);
                  && events == heard + (if input.emits then EventsOf(turns) + Finale(turns, final, usage) else [])
                  && (r.Ok? ==> r.value.trace.usage == usage)
                  && (r.Ok? && final.reasoning != "" ==> r.value.trace.reasoning == final.reasoning)
                  && (r.Ok? && final.reasoning == "" ==> r.value.trace.reasoning == LastReasoning(turns)))
  {
  }

  class Service {
    const env: Env
    var events: seq<Event>
    var executions: seq<ToolCall>
    var states: map<string, nat>

    constructor (env: Env, configuredSteps: int)
      ensures this.env == env.(maxSteps := DefaultSteps(configuredSteps))
      ensures this.env.maxSteps == if configuredSteps > 0 then configuredSteps else 70
      ensures events == [] && executions == [] && states == map[]
    {
      this.env := env.(maxSteps := DefaultSteps(configuredSteps));
      events, executions, states := [], [], map[];
    }

    method ExecuteStep(k: nat, step: ToolStep) returns (result: ToolResult)
      modifies this`executions
      ensures result == Outcome(env, k, step)
      ensures executions == old(executions) + if Runs(env, step.name) then [CallOf(env, k, step)] else []
    {
      if env.allowed != {} && step.name !in env.allowed {
        return ToolResult("", Some(step.name), false, Opaque, NotAllowed(step.name));
      }
      if step.name !in env.registered {
        return ToolResult("", Some(step.name), false, Opaque, NotRegistered(step.name));
      }
      var call := ToolCall(env.callId(k), step.name, step.arguments);
      executions := executions + [call];
      var out := env.tool(k, call);
      result := out.result;
      if result.callId == "" { result := result.(callId := call.id); }
      if result.toolName.None? { result := result.(toolName := Some(step.name)); }
      if out.err.Some? {
        result := result.(ok := false);
        if result.error == BLANK { result := result.(error := out.err.value); }
      }
    }

    method Emit(input: Input, event: Event)
      modifies this`events
      ensures events == old(events) + Heard(input, [event])
    {
      if input.emits { events := events + [event]; }
    }

    method EmitThoughts(input: Input, step: nat, meta: Meta)
      modifies this`events
      ensures events == old(events) + Heard(input, Thoughts(step, meta))
    {
      if meta.thinking != "" { Emit(input, Thinking(step, meta.thinking)); }
      if meta.answer != "" { Emit(input, Answer(step, meta.answer)); }
    }

    method EmitActions(input: Input, step: nat, t: Turn, observation: Message)
      requires observation == Observation(t.result)
      modifies this`events
      ensures events == old(events) + Heard(input, Actions(step, t))
    {
      var event := Called(step, observation, t.result.error, t.call.name, t.call.arguments, "");
      if t.call.name.VmExecuteCommand? && t.call.arguments.command.Some? {
        event := event.(command := t.call.arguments.command.value);
      }
      if t.call.name.PlanAnnounce? && t.result.ok && t.result.payload.Object? {
        Emit(input, Plan(step, Lookup(t.result.payload.summary)));
      }
      Emit(input, event);
    }

    /** One round after a plan: tell, act, observe, tell. */
    method TakeTurn(input: Input, meta: Meta, next: ToolStep, step: nat, ghost turns: seq<Turn>, ghost heard: seq<Event>, ghost ran: seq<ToolCall>)
      returns (result: ToolResult, observation: Message)
      requires step == |turns| + 1
      requires events == heard + Heard(input, EventsOf(turns))
      requires executions == ran + Executed(env, turns)
      modifies this`events, this`executions
      ensures result == Outcome(env, |turns|, next) && observation == Observation(result)
      ensures events == heard + Heard(input, EventsOf(turns + [Turn(meta, next, result)]))
      ensures executions == ran + Executed(env, turns + [Turn(meta, next, result)])
    {
      EmitThoughts(input, step, meta);
      result := ExecuteStep(step - 1, next);
      observation := Observe(result);
      EmitActions(input, step, Turn(meta, next, result), observation);
      StreamNext(env, turns, Turn(meta, next, result));
      HeardInTurn(input, heard, EventsOf(turns), Thoughts(step, meta), Actions(step, Turn(meta, next, result)));
    }

    method EmitFinale(input: Input, ghost turns: seq<Turn>, step: nat, final: Final, usage: Usage)
      requires step == |turns| + 1
      modifies this`events
      ensures events == old(events) + Heard(input, Finale(turns, final, usage))
    {
      if final.thinking != "" { Emit(input, Thinking(step, final.thinking)); }
      Emit(input, Token(final.assistant, if usage == ZERO then None else Some(usage)));
    }

    /** Appends a turn to the loop's records. */
    method Note(input: Input, log: Log, meta: Meta, next: ToolStep, result: ToolResult, observation: Message, step: nat, ghost turns: seq<Turn>)
      returns (longer: Log)
      requires log == LogOf(input, turns) && step == |turns| + 1 && observation == Observation(result)
      ensures longer == LogOf(input, turns + [Turn(meta, next, result)])
    {
      longer := log.(
        executedSteps := log.executedSteps + [next],
        toolResults := log.toolResults + [result],
        priorTurns := log.priorTurns + [PriorTurn(next, result)],
        traceSteps := log.traceSteps + [TraceStep(step, meta.reasoning, next.name, next.arguments, observation, result.ok, result.error)],
        usage := Add(log.usage, meta.usage));
      if meta.reasoning != "" { longer := longer.(reasoning := meta.reasoning); }
      if result.ok && (next.name.VmStart? || next.name.VmCreate?) && result.payload.Object? && Lookup(result.payload.environment) != "" {
        longer := longer.(hint := Lookup(result.payload.environment));
      }
      TurnAdds(input.hint, turns, Turn(meta, next, result));
    }

    method Observe(result: ToolResult) returns (observation: Message)
      ensures observation == Observation(result)
    {
      observation := BLANK;
      if result.payload.Object? {
        if result.payload.output.Some? {
          observation := Text(result.payload.output.value);
        } else if result.payload.json.Some? {
          observation := Text(result.payload.json.value);
        }
      }
      if observation == BLANK && result.error != BLANK {
        observation := ErrorOf(result.error);
      }
    }

    method TakeAndNote(input: Input, meta: Meta, next: ToolStep, step: nat, log: Log, ghost turns: seq<Turn>, ghost heard: seq<Event>, ghost ran: seq<ToolCall>)
      returns (longer: Log, ghost turn: Turn)
      requires step == |turns| + 1 && log == LogOf(input, turns)
      requires events == heard + Heard(input, EventsOf(turns)) && executions == ran + Executed(env, turns)
      modifies this`events, this`executions
      ensures turn == Turn(meta, next, Outcome(env, |turns|, next)) && longer == LogOf(input, turns + [turn])
      ensures events == heard + Heard(input, EventsOf(turns + [turn])) && executions == ran + Executed(env, turns + [turn])
    {
      var result, observation := TakeTurn(input, meta, next, step, turns, heard, ran);
      turn := Turn(meta, next, result);
      longer := Note(input, log, meta, next, result, observation, step, turns);
    }

    /** Writes the final answer for the turns taken, tells the client and saves the step count. */
    method Conclude(input: Input, log: Log, ghost turns: seq<Turn>, ghost heard: seq<Event>) returns (r: Result<ProcessResult>)
      requires log == LogOf(input, turns).(usage := Total(Spent(env, input, turns)))
      requires events == heard + Heard(input, EventsOf(turns))
      modifies this`events, this`states
      ensures Answered(env, input, turns, r, heard, events, old(states), states)
    {
      LogLengths(input, turns);
      var answer := env.finisher(FinalRequest(input.message, log.hint, log.executedSteps, log.toolResults));
      if answer.Err? {
        return Err;
      }
      var final := if env.withMetadata then answer.value else Final(answer.value.assistant, "", "", ZERO);
      TotalSnoc(Spent(env, input, turns), final.usage);
      var trace := Trace(log.reasoning, log.traceSteps, final.assistant, Add(log.usage, final.usage));
      if final.reasoning != "" { trace := trace.(reasoning := final.reasoning); }
      EmitFinale(input, turns, |trace.steps| + 1, final, trace.usage);
      HeardAtEnd(input, heard, EventsOf(turns), Finale(turns, final, trace.usage));
      if !env.saves {
        return Err;
      }
      states := states[input.chat := |log.executedSteps|];
      return Ok(ProcessResult(log.toolResults, final.assistant, trace));
    }

    /** Plans and acts until the planner wants no more, fails, or no step is left. */
    method RunSteps(input: Input) returns (failed: bool, log: Log, ghost turns: seq<Turn>)
      modifies this`events, this`executions
      ensures IsRun(env, input, turns) && |turns| <= env.maxSteps
      ensures executions == old(executions) + Executed(env, turns)
      ensures events == old(events) + Heard(input, EventsOf(turns))
      ensures if failed then Stuck(env, input, turns) else Finished(env, input, turns)
      ensures !failed ==> log == LogOf(input, turns).(usage := Total(Spent(env, input, turns)))
    {
      turns := [];
      failed, log := false, Log(input.hint, [], [], [], "", [], ZERO);
      StreamStart(env);
      var step := 1;
      while step <= env.maxSteps
        invariant 1 <= step == |turns| + 1 <= env.maxSteps + 1
        invariant IsRun(env, input, turns) && !failed
        invariant log == LogOf(input, turns)
        invariant executions == old(executions) + Executed(env, turns)
        invariant events == old(events) + Heard(input, EventsOf(turns))
      {
        var plan := env.planner(step - 1, PlanRequest(input.message, log.hint, log.priorTurns));
        if plan.Err? {
          failed := true;
          return;
        }
        var meta := if env.withMetadata then plan.value.meta else NO_META;
        if plan.value.steps == [] {
          SpentOnStopping(env, input, turns);
          log := log.(usage := Add(log.usage, meta.usage));
          return;
        }
        ghost var turn;
        log, turn := TakeAndNote(input, meta, plan.value.steps[0], step, log, turns, old(events), old(executions));
        RunGrows(env, input, turns, turn);
        turns := turns + [turn];
        step := step + 1;
      }
    }

    /**
     * Answers one user turn: the turns taken are the only run that finished or got stuck, and
     * the answer is the one due for them.
     */
    method ProcessReactLoop(input: Input) returns (r: Result<ProcessResult>, ghost turns: seq<Turn>)
      modifies this
      ensures IsWhole(env, input, turns)
      ensures executions == old(executions) + Executed(env, turns)
      ensures if Stuck(env, input, turns)
        then r.Err? && events == old(events) + Heard(input, EventsOf(turns)) && states == old(states)
        else Answered(env, input, turns, r, old(events), events, old(states), states)
    {
      var failed, log;
      failed, log, turns := RunSteps(input);
      if failed {
        return Err, turns;
      }
      r := Conclude(input, log, turns, old(events));
    }
  }
}
