/** `run_pdf_agent`: the bounded loop that sends the user's prompt to a chat
    session, runs the first tool call it recognises, sends the tool's result
    back and returns the model's text. The model is a scripted chat that hands
    out a fixed sequence of responses; the tools and `response.text` are
    parameters. */
module AgentLoop {
  import opened Wrappers

  /** The one key of `tool_functions`. */
  const ParsePdfToolName: string := "parse_pdf_from_url"
  const DefaultSystemInstruction: string := "You are a helpful assistant."
  const MaxIterationsReached: string := "Max iterations reached"

  /** A value in the arguments of a function call. */
  datatype Value = Str(s: string) | Bool(b: bool) | Num(n: int)
  type Args = map<string, Value>

  /** The record a tool returns (`status`, `text_content`, `message`). */
  datatype ToolResult = ToolResult(status: string, textContent: string, message: string)

  /** A registered tool called with keyword arguments; `None` when the call
      raises (for instance when the arguments do not fit its parameters). */
  type Tool = Args -> Option<ToolResult>

  /** A part of a model response: text, a function call, or anything else. */
  datatype Part = TextPart(text: string) | CallPart(name: string, args: Args) | OtherPart

  /** The parts of `response.candidates[0].content`. */
  datatype Response = Response(parts: seq<Part>)

  /** What the loop sends: the user's prompt, or a function response. */
  datatype Message = UserMessage(text: string) | FunctionResponse(name: string, result: ToolResult)

  /** A tool execution. */
  datatype Invocation = Invocation(name: string, args: Args)

  /** How the loop ends: with the text of a response, by running out of
      iterations, or by an exception (a failed send or a raising tool). */
  datatype Outcome = Answered(text: string) | Exhausted | Failed

  /** What the caller of `run_pdf_agent` sees: a returned string or a raise. */
  datatype Reply = Returned(text: string) | Raised

  /** One run of the loop: its outcome, the messages sent in order, the tools
      executed and the number of iterations started. */
  datatype Trace = Trace(outcome: Outcome, sent: seq<Message>, executed: seq<Invocation>, iterations: nat)

  function Visible(o: Outcome): (r: Reply)
    ensures o.Answered? ==> r == Returned(o.text)
    ensures o.Exhausted? ==> r == Returned(MaxIterationsReached)
    ensures o.Failed? <==> r.Raised?
  {
    match o
    case Answered(t) => Returned(t)
    case Exhausted => Returned(MaxIterationsReached)
    case Failed => Raised
  }

  /** `tool_functions`, given the PDF tool. */
  function ToolFunctions(parsePdf: Tool): (registry: map<string, Tool>)
    ensures registry.Keys == {ParsePdfToolName}
    ensures registry[ParsePdfToolName] == parsePdf
  {
    map[ParsePdfToolName := parsePdf]
  }

  /** Under `tool_functions` a part names a registered tool exactly when it is
      a call of `parse_pdf_from_url`. */
  lemma KnownCallIsPdfTool(parsePdf: Tool, p: Part)
    ensures IsKnownCall(p, ToolFunctions(parsePdf)) <==> p.CallPart? && p.name == ParsePdfToolName
  {
  }

  /** The system instruction the model is created with. */
  function SystemInstruction(systemPrompt: Option<string>): (instruction: string)
    ensures systemPrompt.Some? && systemPrompt.value != "" ==> instruction == systemPrompt.value
    ensures systemPrompt.None? || systemPrompt.value == "" ==> instruction == DefaultSystemInstruction
  {
    if systemPrompt.Some? && systemPrompt.value != "" then systemPrompt.value else DefaultSystemInstruction
  }

  predicate IsKnownCall(p: Part, tools: map<string, Tool>) {
    p.CallPart? && p.name in tools
  }

  predicate HasCall(parts: seq<Part>) {
    exists k :: 0 <= k < |parts| && parts[k].CallPart?
  }

  /** The index of the first part at or after `from` that calls a registered tool. */
  function FirstKnownCall(parts: seq<Part>, tools: map<string, Tool>, from: nat): (r: Option<nat>)
    ensures r.Some? ==> from <= r.value < |parts| && IsKnownCall(parts[r.value], tools)
    ensures r.Some? ==> forall k :: from <= k < r.value ==> !IsKnownCall(parts[k], tools)
    ensures r.None? ==> forall k :: from <= k < |parts| ==> !IsKnownCall(parts[k], tools)
    decreases |parts| - from
  {
    if from >= |parts| then None
    else if IsKnownCall(parts[from], tools) then Some(from)
    else FirstKnownCall(parts, tools, from + 1)
  }

  /** A response whose calls all name unregistered tools, and which has one: it
      neither returns nor runs anything, so the loop goes round again. */
  predicate OnlyUnknownCalls(r: Response, tools: map<string, Tool>) {
    HasCall(r.parts) && FirstKnownCall(r.parts, tools, 0).None?
  }

  /** `n` copies of the user's prompt. */
  function Prompts(prompt: string, n: nat): (ms: seq<Message>)
    ensures |ms| == n && forall k :: 0 <= k < n ==> ms[k] == UserMessage(prompt)
  {
    seq(n, _ => UserMessage(prompt))
  }

  /** `t` preceded by `n` iterations that each sent the prompt and nothing else. */
  function After(prompt: string, n: nat, t: Trace): Trace {
    Trace(t.outcome, Prompts(prompt, n) + t.sent, t.executed, t.iterations + n)
  }

  /** The iteration in which the first registered call, `name(args)`, is run:
      its result goes back to the model, whose next response gives the text. */
  function CallStep(script: seq<Response>, tools: map<string, Tool>, textOf: Response -> string,
                    prompt: string, name: string, args: Args): Trace
    requires name in tools
  {
    var executed := [Invocation(name, args)];
    match tools[name](args)
    case None => Trace(Failed, [UserMessage(prompt)], executed, 1)
    case Some(result) =>
      var sent := [UserMessage(prompt), FunctionResponse(name, result)];
      if |script| < 2 then Trace(Failed, sent, executed, 1)
      else Trace(Answered(textOf(script[1])), sent, executed, 1)
  }

  /** The loop as a function of the scripted responses: `budget` is what is
      left of `max_iterations`. */
  function Run(script: seq<Response>, tools: map<string, Tool>, textOf: Response -> string,
               prompt: string, budget: int): Trace
    decreases if budget > 0 then budget else 0
  {
    if budget <= 0 then Trace(Exhausted, [], [], 0)
    else if script == [] then Trace(Failed, [UserMessage(prompt)], [], 1)
    else
      var parts := script[0].parts;
      match FirstKnownCall(parts, tools, 0)
      case Some(k) => CallStep(script, tools, textOf, prompt, parts[k].name, parts[k].args)
      case None =>
        if HasCall(parts) then After(prompt, 1, Run(script[1..], tools, textOf, prompt, budget - 1))
        else Trace(Answered(textOf(script[0])), [UserMessage(prompt)], [], 1)
  }

  /** A first response without any call is the answer, after one send of the
      prompt. */
  lemma RunPlainText(script: seq<Response>, tools: map<string, Tool>, textOf: Response -> string,
                     prompt: string, budget: int)
    requires budget >= 1 && script != [] && !HasCall(script[0].parts)
    ensures Run(script, tools, textOf, prompt, budget) == Trace(Answered(textOf(script[0])), [UserMessage(prompt)], [], 1)
  {
  }

  /** The first part that calls a registered tool is run, once; later parts are
      not looked at. */
  lemma RunKnownCall(script: seq<Response>, tools: map<string, Tool>, textOf: Response -> string,
                     prompt: string, budget: int, k: nat)
    requires budget >= 1 && script != [] && k < |script[0].parts|
    requires IsKnownCall(script[0].parts[k], tools)
    requires forall j :: 0 <= j < k ==> !IsKnownCall(script[0].parts[j], tools)
    ensures Run(script, tools, textOf, prompt, budget)
            == CallStep(script, tools, textOf, prompt, script[0].parts[k].name, script[0].parts[k].args)
  {
    assert FirstKnownCall(script[0].parts, tools, 0) == Some(k);
  }

  /** A response whose calls are all unknown costs one iteration and one send:
      the loop continues with the rest of the script. */
  lemma RunUnknownCalls(script: seq<Response>, tools: map<string, Tool>, textOf: Response -> string,
                        prompt: string, budget: int)
    requires budget >= 1 && script != [] && OnlyUnknownCalls(script[0], tools)
    ensures Run(script, tools, textOf, prompt, budget)
            == After(prompt, 1, Run(script[1..], tools, textOf, prompt, budget - 1))
  {
  }

  /** With no iterations allowed nothing is sent and the sentinel is returned. */
  lemma RunNoIterations(script: seq<Response>, tools: map<string, Tool>, textOf: Response -> string,
                        prompt: string, budget: int)
    requires budget <= 0
    ensures Run(script, tools, textOf, prompt, budget) == Trace(Exhausted, [], [], 0)
    ensures Visible(Run(script, tools, textOf, prompt, budget).outcome) == Returned(MaxIterationsReached)
  {
  }

  /** What every run satisfies: at most `max_iterations` iterations, each
      starting with a send of the prompt; at most one tool executed, and only a
      registered one, whose result is the one extra message; the answer is the
      text of the reply to the last message sent; exhaustion sends only
      prompts; a failure is a send with no response left or a raising tool. */
  lemma {:induction false} RunBounds(script: seq<Response>, tools: map<string, Tool>,
                                     textOf: Response -> string, prompt: string, budget: int)
    ensures var t := Run(script, tools, textOf, prompt, budget);
            && t.iterations <= (if budget > 0 then budget else 0)
            && t.iterations <= |t.sent| <= t.iterations + 1
            && (forall k :: 0 <= k < t.iterations ==> t.sent[k] == UserMessage(prompt))
            && |t.executed| <= 1
            && (t.executed != [] ==> t.executed[0].name in tools)
            && (|t.sent| == t.iterations + 1 ==>
                  && t.executed != [] && t.sent[|t.sent| - 1].FunctionResponse?
                  && t.sent[|t.sent| - 1].name == t.executed[0].name
                  && tools[t.executed[0].name](t.executed[0].args) == Some(t.sent[|t.sent| - 1].result))
            && (t.outcome.Exhausted? ==>
                  t.iterations == (if budget > 0 then budget else 0) && |t.sent| == t.iterations && t.executed == [])
            && (t.outcome.Answered? ==> 1 <= |t.sent| <= |script| && t.outcome.text == textOf(script[|t.sent| - 1]))
            && (t.outcome.Failed? ==>
                  |t.sent| > |script| || (t.executed != [] && tools[t.executed[0].name](t.executed[0].args).None?))
    decreases if budget > 0 then budget else 0
  {
    if budget > 0 && script != [] {
      var parts := script[0].parts;
      if FirstKnownCall(parts, tools, 0).None? && HasCall(parts) {
        RunUnknownCalls(script, tools, textOf, prompt, budget);
        RunBounds(script[1..], tools, textOf, prompt, budget - 1);
        var t' := Run(script[1..], tools, textOf, prompt, budget - 1);
        var t := Run(script, tools, textOf, prompt, budget);
        assert t.sent == [UserMessage(prompt)] + t'.sent;
        forall k | 0 <= k < t.iterations ensures t.sent[k] == UserMessage(prompt) {
          if k > 0 {
            assert t.sent[k] == t'.sent[k - 1];
          }
        }
        if t.outcome.Answered? {
          assert script[1..][|t'.sent| - 1] == script[|t.sent| - 1];
        }
      }
    }
  }

  /** The sentinel is returned exactly when each of the first `max_iterations`
      responses exists and holds only calls to unregistered tools. */
  lemma {:induction false} RunExhaustedIff(script: seq<Response>, tools: map<string, Tool>,
                                           textOf: Response -> string, prompt: string, budget: int)
    ensures Run(script, tools, textOf, prompt, budget).outcome.Exhausted?
            <==> budget <= |script| && forall k :: 0 <= k < budget ==> OnlyUnknownCalls(script[k], tools)
    decreases if budget > 0 then budget else 0
  {
    if budget > 0 && script != [] {
      if OnlyUnknownCalls(script[0], tools) {
        RunUnknownCalls(script, tools, textOf, prompt, budget);
        RunExhaustedIff(script[1..], tools, textOf, prompt, budget - 1);
        if budget - 1 <= |script[1..]| && forall k :: 0 <= k < budget - 1 ==> OnlyUnknownCalls(script[1..][k], tools) {
          forall k | 0 <= k < budget ensures OnlyUnknownCalls(script[k], tools) {
            if k > 0 {
              assert script[k] == script[1..][k - 1];
            }
          }
        } else if budget - 1 <= |script[1..]| {
          var k :| 0 <= k < budget - 1 && !OnlyUnknownCalls(script[1..][k], tools);
          assert script[1..][k] == script[k + 1];
        }
      } else {
        match FirstKnownCall(script[0].parts, tools, 0)
        case Some(k) =>
          assert !Run(script, tools, textOf, prompt, budget).outcome.Exhausted?;
        case None =>
          assert !Run(script, tools, textOf, prompt, budget).outcome.Exhausted?;
      }
    }
  }

  /** A model that keeps asking for the same unregistered tool gets the
      sentinel after `max_iterations` sends of the prompt. */
  lemma RepeatedUnknownCallExhausts(script: seq<Response>, tools: map<string, Tool>,
                                    textOf: Response -> string, prompt: string, budget: nat, r: Response)
    requires OnlyUnknownCalls(r, tools)
    requires budget <= |script| && forall k :: 0 <= k < |script| ==> script[k] == r
    ensures Visible(Run(script, tools, textOf, prompt, budget).outcome) == Returned(MaxIterationsReached)
    ensures Run(script, tools, textOf, prompt, budget).sent == Prompts(prompt, budget)
  {
    RunExhaustedIff(script, tools, textOf, prompt, budget);
    RunBounds(script, tools, textOf, prompt, budget);
  }

  /** The chat session: the responses the model has still to give, and the log
      of messages sent to it. */
  class Chat {
    const instruction: string
    var pending: seq<Response>
    var log: seq<Message>

    constructor (instruction: string, script: seq<Response>)
      ensures this.instruction == instruction && pending == script && log == []
    {
      this.instruction := instruction;
      pending := script;
      log := [];
    }

    /** `chat.send_message(m)`: logs `m` and hands out the next response, or
        fails when the model has none left to give. */
    method SendMessage(m: Message) returns (r: Option<Response>)
      modifies this
      ensures log == old(log) + [m]
      ensures old(pending) == [] ==> r.None? && pending == []
      ensures old(pending) != [] ==> r == Some(old(pending)[0]) && pending == old(pending)[1..]
    {
      log := log + [m];
      if pending == [] {
        r := None;
      } else {
        r := Some(pending[0]);
        pending := pending[1..];
      }
    }
  }

  lemma AfterAfter(prompt: string, n: nat, t: Trace)
    ensures After(prompt, 1, After(prompt, n, t)) == After(prompt, n + 1, t)
  {
    assert [UserMessage(prompt)] + (Prompts(prompt, n) + t.sent) == Prompts(prompt, n + 1) + t.sent;
  }

  /** `n` responses whose calls are all unknown: the loop has sent the prompt
      `n` times, run nothing, and carries on with the rest of the script. */
  lemma {:induction false} RunSkipsUnknown(script: seq<Response>, tools: map<string, Tool>,
                                           textOf: Response -> string, prompt: string, budget: int, n: nat)
    requires n <= |script| && (n == 0 || n <= budget)
    requires forall k :: 0 <= k < n ==> OnlyUnknownCalls(script[k], tools)
    ensures Run(script, tools, textOf, prompt, budget)
            == After(prompt, n, Run(script[n..], tools, textOf, prompt, budget - n))
  {
    if n == 0 {
      assert script[0..] == script;
      assert Prompts(prompt, 0) == [];
    } else {
      RunUnknownCalls(script, tools, textOf, prompt, budget);
      var tail := Run(script[n..], tools, textOf, prompt, budget - n);
      assert script[1..][n - 1..] == script[n..];
      RunSkipsUnknown(script[1..], tools, textOf, prompt, budget - 1, n - 1);
      AfterAfter(prompt, n - 1, tail);
    }
  }

  /** Lines 147-166 of `run_pdf_agent`, once a registered call `name(args)` is
      found in the response `script[0]`: run the tool, send its result back under
      the same name and answer with the text of the model's reply. */
  method RunToolCall(chat: Chat, name: string, args: Args, tools: map<string, Tool>,
                     textOf: Response -> string, ghost script: seq<Response>, ghost prompt: string)
    returns (r: Reply)
    requires name in tools && script != [] && chat.pending == script[1..]
    modifies chat
    ensures var t := CallStep(script, tools, textOf, prompt, name, args);
            r == Visible(t.outcome) && chat.log == old(chat.log) + t.sent[1..]
    ensures tools[name](args).Some? ==> chat.pending == (if |script| < 2 then [] else script[2..])
    ensures tools[name](args).None? ==> chat.pending == old(chat.pending)
  {
    var result := tools[name](args);
    if result.None? {
      return Raised;
    }
    var reply := chat.SendMessage(FunctionResponse(name, result.value));
    if reply.None? {
      return Raised;
    }
    return Returned(textOf(reply.value));
  }

  /** The scan of a response's parts: notes whether any part is a function
      call and stops at the first call of a registered tool. */
  method ScanParts(parts: seq<Part>, tools: map<string, Tool>) returns (hasFunctionCall: bool, known: Option<nat>)
    ensures known == FirstKnownCall(parts, tools, 0)
    ensures known.None? ==> (hasFunctionCall <==> HasCall(parts))
  {
    hasFunctionCall := false;
    for i := 0 to |parts|
      invariant hasFunctionCall <==> exists k :: 0 <= k < i && parts[k].CallPart?
      invariant forall k :: 0 <= k < i ==> !IsKnownCall(parts[k], tools)
    {
      if parts[i].CallPart? {
        hasFunctionCall := true;
        if parts[i].name in tools {
          FirstKnownCallIs(parts, tools, 0, i);
          return hasFunctionCall, Some(i);
        }
      }
    }
    return hasFunctionCall, None;
  }

  /** The first registered call from `from` on is at `i` when the part at `i`
      is one and none before it is. */
  lemma {:induction false} FirstKnownCallIs(parts: seq<Part>, tools: map<string, Tool>, from: nat, i: nat)
    requires from <= i < |parts| && IsKnownCall(parts[i], tools)
    requires forall k :: from <= k < i ==> !IsKnownCall(parts[k], tools)
    ensures FirstKnownCall(parts, tools, from) == Some(i)
    decreases i - from
  {
    if from < i {
      assert !IsKnownCall(parts[from], tools);
      FirstKnownCallIs(parts, tools, from + 1, i);
    }
  }

  lemma PromptsSnoc(prompt: string, n: nat)
    ensures Prompts(prompt, n) + [UserMessage(prompt)] == Prompts(prompt, n + 1)
  {
    assert (Prompts(prompt, n) + [UserMessage(prompt)])[n] == UserMessage(prompt);
  }

  /** `run_pdf_agent(user_prompt, system_prompt, max_iterations)` against a
      model that gives the responses in `script`. It returns what `Run`
      predicts, and the chat log and the tools it ran are those of `Run`. */
  method RunPdfAgent(userPrompt: string, systemPrompt: Option<string>, maxIterations: int,
                     script: seq<Response>, tools: map<string, Tool>, textOf: Response -> string)
    returns (r: Reply, ghost log: seq<Message>, ghost executed: seq<Invocation>)
    ensures r == Visible(Run(script, tools, textOf, userPrompt, maxIterations).outcome)
    ensures var t := Run(script, tools, textOf, userPrompt, maxIterations);
            log == t.sent && executed == t.executed
  {
    var chat := new Chat(SystemInstruction(systemPrompt), script);
    var iteration := 0;
    executed := [];
    while iteration < maxIterations
      invariant 0 <= iteration <= |script|
      invariant iteration == 0 || iteration <= maxIterations
      invariant chat.pending == script[iteration..]
      invariant chat.log == Prompts(userPrompt, iteration)
      invariant executed == []
      invariant forall k :: 0 <= k < iteration ==> OnlyUnknownCalls(script[k], tools)
      decreases maxIterations - iteration
    {
      RunSkipsUnknown(script, tools, textOf, userPrompt, maxIterations, iteration);
      ghost var rest := script[iteration..];
      ghost var done := iteration;
      ghost var budget := maxIterations - iteration;
      iteration := iteration + 1;
      var response := chat.SendMessage(UserMessage(userPrompt));
      if response.None? {
        return Raised, chat.log, executed;
      }
      var parts := response.value.parts;
      var hasFunctionCall, known := ScanParts(parts, tools);
      if known.Some? {
        var k := known.value;
        RunKnownCall(rest, tools, textOf, userPrompt, budget, k);
        executed := [Invocation(parts[k].name, parts[k].args)];
        r := RunToolCall(chat, parts[k].name, parts[k].args, tools, textOf, rest, userPrompt);
        return r, chat.log, executed;
      }
      if !hasFunctionCall {
        RunPlainText(rest, tools, textOf, userPrompt, budget);
        return Returned(textOf(response.value)), chat.log, executed;
      }
      PromptsSnoc(userPrompt, done);
    }
    RunSkipsUnknown(script, tools, textOf, userPrompt, maxIterations, iteration);
    return Returned(MaxIterationsReached), chat.log, executed;
  }
}
