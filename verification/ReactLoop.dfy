/**
 The agent's tool-call loop (agent_service/agent/react_loop.py, agent_service/llm_client.py): at
 most five turns against a model that may answer anything. The model, json.loads and the tools are
 parameters.
 */
module ReactLoop {
  import opened Options

  const MAX_STEPS: nat := 5

  datatype Json = Object(fields: map<string, Json>) | Array(items: seq<Json>) | Text(s: string) | Scalar

  /** The arguments of a call as the model sends them: null or another empty value, text, or neither, with what json.loads then raises. */
  datatype Arguments = Missing | Null | Given(raw: string) | NotText(error: string)

  /** A call as it stands in the response, less the index field; a key may be missing. */
  datatype WireCall = WireCall(id: Option<string>, func: Option<WireFunction>)
  datatype WireFunction = WireFunction(name: Option<string>, arguments: Arguments)

  /** A call with all its keys. */
  datatype RawCall = RawCall(id: string, name: string, arguments: Arguments)

  /** A call with its arguments decoded. */
  datatype Call = Call(id: string, name: string, args: Json)

  datatype Message = System(text: string) | User(text: string) | Assistant(calls: seq<RawCall>) | Tool(callId: string, result: string)

  /** What the request gives: requests.Timeout, the text of any other exception up to the message, or a message. */
  datatype Response = NoAnswerInTime | Broke(error: string) | Answered(content: Option<string>, calls: seq<WireCall>)

  /** What chat_with_tools returns. */
  datatype Reply = Content(text: string) | ToolCalls(calls: seq<Call>, message: Message)

  datatype Env = Env(
    userId: string,
    llm: (nat, seq<Message>) -> Response,
    loads: string -> Option<Json>,          // None is JSONDecodeError
    execute: (string, Json) -> string)      // never raises: failures become text

  /** Absent, null and empty arguments become an object; text that is not JSON is kept under "raw". */
  function Decode(arguments: Arguments, loads: string -> Option<Json>): Json {
    match arguments
    case Missing => DecodeText("{}", loads)
    case Null => Object(map[])
    case Given(raw) => DecodeText(raw, loads)
    case NotText(_) => Scalar  // never decoded: reading such a call raises
  }

  function DecodeText(raw: string, loads: string -> Option<Json>): Json {
    if raw == "" then Object(map[])
    else if loads(raw).None? then Object(map["raw" := Text(raw)])
    else loads(raw).value
  }

  /** Valid JSON is passed on as it is; what is absent or empty is an object without keys; other text is kept under one key. */
  lemma DecodedByForm(arguments: Arguments, loads: string -> Option<Json>)
    ensures arguments == Null || arguments == Given("") ==> Decode(arguments, loads) == Object(map[])
    ensures forall raw, json :: raw != "" && arguments == Given(raw) && loads(raw) == Some(json) ==> Decode(arguments, loads) == json
    ensures forall raw :: raw != "" && arguments == Given(raw) && loads(raw) == None ==>
      Decode(arguments, loads) == Object(map["raw" := Text(raw)])
    ensures loads("{}") == Some(Object(map[])) && arguments == Missing ==> Decode(arguments, loads) == Object(map[])
  {
  }

  function Decoded(raw: RawCall, loads: string -> Option<Json>): Call {
    Call(raw.id, raw.name, Decode(raw.arguments, loads))
  }

  const TIMEOUT_TEXT: string := "抱歉，服务响应超时，请稍后重试。"

  function Unavailable(error: string): string { "抱歉，服务暂时不可用: " + error }

  /** Python's str.isspace for one character. */
  predicate IsSpace(c: char) {
    var n := c as int;
    || 9 <= n <= 13 || 28 <= n <= 32 || n == 0x85 || n == 0xA0 || n == 0x1680 || 0x2000 <= n <= 0x200A
    || n == 0x2028 || n == 0x2029 || n == 0x202F || n == 0x205F || n == 0x3000
  }

  predicate AllSpace(s: string) { forall i :: 0 <= i < |s| ==> IsSpace(s[i]) }

  /** str.strip: what is left without the space at both ends. */
  function Strip(s: string): (r: string)
    ensures r == [] || (!IsSpace(r[0]) && !IsSpace(r[|r| - 1]))
    ensures exists i, j :: 0 <= i <= j <= |s| && AllSpace(s[..i]) && s[i..j] == r && AllSpace(s[j..])
  {
    var i, j := Left(s), Right(s);
    if i <= j then
      assert AllSpace(s[..i]) && s[i..j] == s[i..j] && AllSpace(s[j..]);
      s[i..j]
    else
      assert AllSpace(s[..i]) && i == |s| && s[i..i] == [] && AllSpace(s[i..]);
      []
  }

  /** How much space there is on the left. */
  function Left(s: string): (i: nat)
    ensures i <= |s| && AllSpace(s[..i]) && (i < |s| ==> !IsSpace(s[i]))
  {
    if s == [] || !IsSpace(s[0]) then 0
    else
      var i := Left(s[1..]);
      assert s[..i + 1] == [s[0]] + s[1..][..i];
      i + 1
  }

  /** Where the space on the right begins. */
  function Right(s: string): (j: nat)
    ensures j <= |s| && AllSpace(s[j..]) && (j > 0 ==> !IsSpace(s[j - 1]))
  {
    if s == [] || !IsSpace(s[|s| - 1]) then |s|
    else
      var j := Right(s[..|s| - 1]);
      assert s[j..] == s[..|s| - 1][j..] + [s[|s| - 1]];
      j
  }

  /** The text of what reading a call raises, in the order its keys are read. */
  function Fault(call: WireCall): Option<string> {
    if call.func.None? then Some("'function'")
    else if call.func.value.arguments.NotText? then Some(call.func.value.arguments.error)
    else if call.id.None? then Some("'id'")
    else if call.func.value.name.None? then Some("'name'")
    else None
  }

  /** The key a call lacks is named in quotes, in the order function, arguments, id, name. */
  lemma FaultByForm(call: WireCall)
    ensures call.func.None? ==> Fault(call) == Some("'function'")
    ensures forall f, e :: call.func == Some(f) && f.arguments == NotText(e) ==> Fault(call) == Some(e)
    ensures call.func.Some? && !call.func.value.arguments.NotText? ==>
      Fault(call) == if call.id.None? then Some("'id'") else if call.func.value.name.None? then Some("'name'") else None
  {
  }

  predicate AllWhole(calls: seq<WireCall>) { forall i :: 0 <= i < |calls| ==> Fault(calls[i]).None? }

  function FirstFault(calls: seq<WireCall>): (error: Option<string>)
    ensures error.None? <==> AllWhole(calls)
  {
    if calls == [] then None
    else if Fault(calls[0]).Some? then Fault(calls[0])
    else
      assert forall i :: 1 <= i < |calls| ==> calls[i] == calls[1..][i - 1];
      FirstFault(calls[1..])
  }

  lemma {:induction false} FirstFaultAt(calls: seq<WireCall>, i: nat)
    requires i < |calls| && AllWhole(calls[..i]) && Fault(calls[i]).Some?
    ensures FirstFault(calls) == Fault(calls[i])
  {
    if i > 0 {
      assert calls[..i][0] == calls[0] && calls[1..][..i - 1] == calls[..i][1..];
      FirstFaultAt(calls[1..], i - 1);
    }
  }

  function Whole(call: WireCall): RawCall
    requires Fault(call).None?
  {
    RawCall(call.id.value, call.func.value.name.value, call.func.value.arguments)
  }

  /** The calls a response asks for, if it asks for any and all of them can be read. */
  function Asked(response: Response): Option<seq<RawCall>> {
    if response.Answered? && response.calls != [] && AllWhole(response.calls)
    then Some(seq(|response.calls|, i requires 0 <= i < |response.calls| => Whole(response.calls[i])))
    else None
  }

  /** Each key of a call that can be read stands in its own place, in the call echoed and in the call run. */
  lemma CallsKeepPlaces(response: Response, loads: string -> Option<Json>, i: nat)
    requires Asked(response).Some? && i < |response.calls|
    ensures |Asked(response).value| == |response.calls|
    ensures var wire, raw := response.calls[i], Asked(response).value[i];
      && wire == WireCall(Some(raw.id), Some(WireFunction(Some(raw.name), raw.arguments)))
      && Decoded(raw, loads) == Call(raw.id, raw.name, Decode(raw.arguments, loads))
  {
    assert Fault(response.calls[i]).None?;
  }

  /** A response asks for calls exactly when it came, has some, and each has its id, its name and arguments that are text or empty. */
  lemma AskedIff(response: Response)
    ensures Asked(response).Some? <==>
      && response.Answered? && response.calls != []
      && forall i :: 0 <= i < |response.calls| ==>
        var c := response.calls[i]; c.id.Some? && c.func.Some? && c.func.value.name.Some? && !c.func.value.arguments.NotText?
  {
    if response.Answered? && response.calls != [] && !AllWhole(response.calls) {
      var i :| 0 <= i < |response.calls| && Fault(response.calls[i]).Some?;
    }
  }

  /** What a response says when it asks for no calls that can be read. */
  function TextOf(response: Response): string {
    match response
    case NoAnswerInTime => TIMEOUT_TEXT
    case Broke(error) => Unavailable(error)
    case Answered(content, calls) =>
      if FirstFault(calls).Some? then Unavailable(FirstFault(calls).value)
      else Strip(if content.Some? then content.value else "")
  }

  /** One reply gives the calls to run and the message to echo, call for call; any fault in it makes it a text. */
  method ChatWithTools(response: Response, loads: string -> Option<Json>) returns (reply: Reply)
    ensures reply.ToolCalls? <==> Asked(response).Some?
    ensures reply.Content? ==> reply.text == TextOf(response)
    ensures response == NoAnswerInTime ==> reply == Content("抱歉，服务响应超时，请稍后重试。")
    ensures response.Broke? ==> reply == Content("抱歉，服务暂时不可用: " + response.error)
    ensures response.Answered? && response.calls == [] ==>
      reply == Content(Strip(if response.content.Some? then response.content.value else ""))
    ensures reply.ToolCalls? ==> reply.message == Assistant(Asked(response).value) && |reply.calls| == |response.calls|
    ensures reply.ToolCalls? ==> forall i :: 0 <= i < |reply.calls| ==> reply.calls[i] == Decoded(Whole(response.calls[i]), loads)
  {
    if response == NoAnswerInTime {
      return Content(TIMEOUT_TEXT);
    }
    if response.Broke? {
      return Content(Unavailable(response.error));
    }
    if response.calls != [] {
      var toolCalls: seq<Call> := [];
      for i := 0 to |response.calls|
        invariant |toolCalls| == i && AllWhole(response.calls[..i])
        invariant forall j :: 0 <= j < i ==> Fault(response.calls[j]).None? && toolCalls[j] == Decoded(Whole(response.calls[j]), loads)
      {
        var tc := response.calls[i];
        if Fault(tc).Some? {
          FirstFaultAt(response.calls, i);
          return Content(Unavailable(Fault(tc).value));
        }
        toolCalls := toolCalls + [Call(tc.id.value, tc.func.value.name.value, Decode(tc.func.value.arguments, loads))];
      }
      assert AllWhole(response.calls);
      var cleanCalls: seq<RawCall> := [];
      for i := 0 to |response.calls|
        invariant |cleanCalls| == i && cleanCalls == Asked(response).value[..i]
      {
        cleanCalls := cleanCalls + [Whole(response.calls[i])];
      }
      return ToolCalls(toolCalls, Assistant(cleanCalls));
    }
    reply := Content(Strip(if response.content.Some? then response.content.value else ""));
  }

  /** `"user_id" in args`, then the assignment; None when either raises. */
  function Inject(args: Json, userId: string): Option<Json> {
    match args
    case Object(fields) => Some(if "user_id" in fields then Object(fields["user_id" := Text(userId)]) else args)
    case Array(items) => if Text("user_id") in items then None else Some(args)
    case Text(s) => if Contains(s, "user_id") then None else Some(args)
    case Scalar => None
  }

  predicate Contains(s: string, part: string) {
    |part| <= |s| && (s[..|part|] == part || Contains(s[1..], part))
  }

  /** The arguments a tool is run with: an object with the same keys and values but the caller's user_id; anything else as it is. */
  predicate SameButUserId(args: Json, used: Json, userId: string) {
    if args.Object? then
      && used.Object? && used.fields.Keys == args.fields.Keys
      && forall key :: key in args.fields ==> used.fields[key] == if key == "user_id" then Text(userId) else args.fields[key]
    else
      used == args
  }

  /** `part` stands in `s` from position i on. */
  predicate OccursAt(s: string, part: string, i: nat) { i + |part| <= |s| && s[i..i + |part|] == part }

  lemma {:induction false} ContainsIff(s: string, part: string)
    ensures Contains(s, part) <==> exists i: nat :: OccursAt(s, part, i)
  {
    if |part| <= |s| {
      assert s[0..0 + |part|] == s[..|part|];
      if OccursAt(s, part, 0) {
      } else if s != "" {
        ContainsIff(s[1..], part);
        OccursLater(s, part);
      }
    }
  }

  lemma OccursLater(s: string, part: string)
    requires s != "" && !OccursAt(s, part, 0)
    ensures (exists i: nat :: OccursAt(s, part, i)) <==> exists i: nat :: OccursAt(s[1..], part, i)
  {
    forall i: nat | OccursAt(s[1..], part, i) ensures OccursAt(s, part, i + 1) {
      assert s[1..][i..i + |part|] == s[i + 1..i + 1 + |part|];
    }
    forall i: nat | OccursAt(s, part, i) ensures i > 0 && OccursAt(s[1..], part, i - 1) {
      assert s[1..][i - 1..i - 1 + |part|] == s[i..i + |part|];
    }
  }

  /**
   Putting the caller's id in: an object keeps its keys and every other value; a list raises exactly
   when it holds the text "user_id", a text exactly when that occurs in it; a number, a boolean and
   null always raise.
   */
  lemma InjectByForm(args: Json, userId: string)
    ensures args.Object? ==> Inject(args, userId).Some?
    ensures args.Array? ==> (Inject(args, userId).None? <==> Text("user_id") in args.items)
    ensures args.Text? ==> (Inject(args, userId).None? <==> exists i: nat :: OccursAt(args.s, "user_id", i))
    ensures args == Scalar ==> Inject(args, userId).None?
    ensures Inject(args, userId).Some? ==> SameButUserId(args, Inject(args, userId).value, userId)
  {
    if args.Text? {
      ContainsIff(args.s, "user_id");
    }
  }

  datatype Outcome = Going | Replied(text: string) | TimedOut | Raised

  /** The run so far: messages, names in order, what was executed, and how it stands. */
  datatype Talk = Talk(messages: seq<Message>, toolsCalled: seq<string>, executed: seq<Call>, outcome: Outcome)

  function Begin(prompt: string, userMessage: string): Talk {
    Talk([System(prompt), User(userMessage)], [], [], Going)
  }

  /** Running one decoded call. */
  function AfterCall(t: Talk, call: Call, env: Env): Talk {
    var args := Inject(call.args, env.userId);
    if args.None? then t.(toolsCalled := t.toolsCalled + [call.name], outcome := Raised)
    else Talk(t.messages + [Tool(call.id, env.execute(call.name, args.value))],
              t.toolsCalled + [call.name],
              t.executed + [Call(call.id, call.name, args.value)],
              t.outcome)
  }

  /** The calls of one reply, in order, until one raises. */
  function AfterCalls(t: Talk, calls: seq<RawCall>, env: Env): Talk
    decreases |calls|
  {
    if calls == [] || t.outcome != Going then t
    else AfterCalls(AfterCall(t, Decoded(calls[0], env.loads), env), calls[1..], env)
  }

  function AfterStep(t: Talk, step: nat, env: Env): Talk {
    var response := env.llm(step, t.messages);
    var asked := Asked(response);
    if asked.None? then t.(outcome := Replied(TextOf(response)))
    else AfterCalls(t.(messages := t.messages + [Assistant(asked.value)]), asked.value, env)
  }

  function AfterSteps(t: Talk, step: nat, env: Env): Talk
    requires step <= MAX_STEPS
    decreases MAX_STEPS - step
  {
    if t.outcome != Going then t
    else if step == MAX_STEPS then t.(outcome := TimedOut)
    else AfterSteps(AfterStep(t, step, env), step + 1, env)
  }

  method Run(prompt: string, userMessage: string, env: Env) returns (t: Talk, reply: string)
    ensures t == AfterSteps(Begin(prompt, userMessage), 0, env)
    ensures t.outcome.Replied? ==> reply == t.outcome.text
    ensures t.outcome == TimedOut ==> reply == "抱歉，处理超时，请稍后重试。"
  {
    reply := "";
    t := Talk([System(prompt), User(userMessage)], [], [], Going);
    for step := 0 to MAX_STEPS
      invariant t.outcome == Going && AfterSteps(t, step, env) == AfterSteps(Begin(prompt, userMessage), 0, env)
    {
      var response := env.llm(step, t.messages);
      var answer := ChatWithTools(response, env.loads);
      if answer.Content? {
        return t.(outcome := Replied(answer.text)), answer.text;
      }
      t := t.(messages := t.messages + [answer.message]);
      t := RunCalls(t, answer.calls, Asked(response).value, env);
      if t.outcome == Raised {
        return;
      }
    }
    t, reply := t.(outcome := TimedOut), "抱歉，处理超时，请稍后重试。";
  }

  /** The inner loop; a Python exception leaves it at once. */
  method RunCalls(begun: Talk, calls: seq<Call>, ghost raw: seq<RawCall>, env: Env) returns (t: Talk)
    requires begun.outcome == Going && |calls| == |raw|
    requires forall i :: 0 <= i < |calls| ==> calls[i] == Decoded(raw[i], env.loads)
    ensures t == AfterCalls(begun, raw, env) && (t.outcome == Going || t.outcome == Raised)
  {
    t := begun;
    for i := 0 to |calls|
      invariant t.outcome == Going && AfterCalls(t, raw[i..], env) == AfterCalls(begun, raw, env)
    {
      var name := calls[i].name;
      assert raw[i..][1..] == raw[i + 1..];
      t := t.(toolsCalled := t.toolsCalled + [name]);
      var args := Inject(calls[i].args, env.userId);
      if args.None? {
        return t.(outcome := Raised);
      }
      var result := env.execute(name, args.value);
      t := t.(executed := t.executed + [Call(calls[i].id, name, args.value)],
              messages := t.messages + [Tool(calls[i].id, result)]);
    }
  }

  // ---------------------------------------------------------------- the transcript

  /** The arguments a call is run with. */
  function Used(raw: RawCall, env: Env): Option<Json> { Inject(Decode(raw.arguments, env.loads), env.userId) }

  /** The tool message that answers a call. */
  function Answer(raw: RawCall, env: Env): Message {
    Tool(raw.id, if Used(raw, env).Some? then env.execute(raw.name, Used(raw, env).value) else "")
  }

  function Answers(calls: seq<RawCall>, env: Env): seq<Message> {
    if calls == [] then [] else [Answer(calls[0], env)] + Answers(calls[1..], env)
  }

  function Names(calls: seq<RawCall>): seq<string> {
    if calls == [] then [] else [calls[0].name] + Names(calls[1..])
  }

  /** One turn in the transcript: the echoed calls, then their answers in the same order. */
  function Block(calls: seq<RawCall>, env: Env): seq<Message> { [Assistant(calls)] + Answers(calls, env) }

  function Blocks(turns: seq<seq<RawCall>>, env: Env): seq<Message> {
    if turns == [] then [] else Block(turns[0], env) + Blocks(turns[1..], env)
  }

  function AllNames(turns: seq<seq<RawCall>>): seq<string> {
    if turns == [] then [] else Names(turns[0]) + AllNames(turns[1..])
  }

  predicate Runnable(calls: seq<RawCall>, env: Env) {
    forall i :: 0 <= i < |calls| ==> Used(calls[i], env).Some?
  }

  lemma Regroup<T>(a: seq<T>, b: seq<T>, c: seq<T>)
    ensures a + (b + c) == a + b + c
  {
  }

  lemma RunnableCons(calls: seq<RawCall>, env: Env)
    requires calls != []
    ensures Runnable(calls, env) <==> Used(calls[0], env).Some? && Runnable(calls[1..], env)
  {
    assert forall i :: 1 <= i < |calls| ==> calls[i] == calls[1..][i - 1];
  }

  /** What has been said by then: the answers and names of these calls are added. */
  predicate Extends(t: Talk, u: Talk, calls: seq<RawCall>, env: Env) {
    u.messages == t.messages + Answers(calls, env) && u.toolsCalled == t.toolsCalled + Names(calls)
  }

  lemma ExtendsCons(t: Talk, next: Talk, u: Talk, calls: seq<RawCall>, env: Env)
    requires calls != [] && Extends(next, u, calls[1..], env)
    requires next.messages == t.messages + [Answer(calls[0], env)] && next.toolsCalled == t.toolsCalled + [calls[0].name]
    ensures Extends(t, u, calls, env)
  {
    Regroup(t.messages, [Answer(calls[0], env)], Answers(calls[1..], env));
    Regroup(t.toolsCalled, [calls[0].name], Names(calls[1..]));
  }

  /** A reply's calls run to the end exactly when no arguments make the injection raise. */
  lemma {:induction false} CallsRunIff(t: Talk, calls: seq<RawCall>, env: Env)
    requires t.outcome == Going
    ensures var u := AfterCalls(t, calls, env);
      && (u.outcome == Going || u.outcome == Raised)
      && (u.outcome == Going <==> Runnable(calls, env))
      && (u.outcome == Going ==> Extends(t, u, calls, env))
    decreases |calls|
  {
    if calls != [] {
      var next := AfterCall(t, Decoded(calls[0], env.loads), env);
      RunnableCons(calls, env);
      if Used(calls[0], env).Some? {
        CallsRunIff(next, calls[1..], env);
        if Runnable(calls[1..], env) {
          ExtendsCons(t, next, AfterCalls(t, calls, env), calls, env);
        }
      }
    }
  }

  lemma {:induction false} BlocksSnoc(turns: seq<seq<RawCall>>, turn: seq<RawCall>, env: Env)
    ensures Blocks(turns + [turn], env) == Blocks(turns, env) + Block(turn, env)
  {
    var all, block := turns + [turn], Block(turn, env);
    if turns == [] {
      assert all[1..] == [];
      assert block + [] == [] + block;
    } else {
      assert all[0] == turns[0] && all[1..] == turns[1..] + [turn];
      BlocksSnoc(turns[1..], turn, env);
      Regroup(Block(turns[0], env), Blocks(turns[1..], env), block);
    }
  }

  lemma {:induction false} NamesSnoc(turns: seq<seq<RawCall>>, turn: seq<RawCall>)
    ensures AllNames(turns + [turn]) == AllNames(turns) + Names(turn)
  {
    var all, names := turns + [turn], Names(turn);
    if turns == [] {
      assert all[1..] == [];
      assert names + [] == [] + names;
    } else {
      assert all[0] == turns[0] && all[1..] == turns[1..] + [turn];
      NamesSnoc(turns[1..], turn);
      Regroup(Names(turns[0]), AllNames(turns[1..]), names);
    }
  }

  /** The transcript of these turns. */
  predicate IsTranscript(t: Talk, prompt: string, userMessage: string, turns: seq<seq<RawCall>>, env: Env) {
    && t.messages == [System(prompt), User(userMessage)] + Blocks(turns, env)
    && t.toolsCalled == AllNames(turns)
    && (forall i :: 0 <= i < |turns| ==> turns[i] != [] && Runnable(turns[i], env))
  }

  /** Every turn is what the model asked for when it was shown the transcript up to there. */
  predicate FromModel(prompt: string, userMessage: string, turns: seq<seq<RawCall>>, env: Env) {
    forall k :: 0 <= k < |turns| ==>
      Asked(env.llm(k, [System(prompt), User(userMessage)] + Blocks(turns[..k], env))) == Some(turns[k])
  }

  lemma FromModelSnoc(prompt: string, userMessage: string, turns: seq<seq<RawCall>>, turn: seq<RawCall>, env: Env)
    requires FromModel(prompt, userMessage, turns, env)
    requires Asked(env.llm(|turns|, [System(prompt), User(userMessage)] + Blocks(turns, env))) == Some(turn)
    ensures FromModel(prompt, userMessage, turns + [turn], env)
  {
    var all := turns + [turn];
    forall k | 0 <= k < |all|
      ensures Asked(env.llm(k, [System(prompt), User(userMessage)] + Blocks(all[..k], env))) == Some(all[k])
    {
      assert all[..k] == turns[..k];
      assert turns[..|turns|] == turns;
    }
  }

  /** How a run stands that has not raised: a reply is the model's text on the whole transcript. */
  predicate Explained(t: Talk, prompt: string, userMessage: string, turns: seq<seq<RawCall>>, env: Env) {
    && IsTranscript(t, prompt, userMessage, turns, env)
    && FromModel(prompt, userMessage, turns, env)
    && (t.outcome.Replied? ==>
          Asked(env.llm(|turns|, t.messages)).None? && t.outcome.text == TextOf(env.llm(|turns|, t.messages)))
  }

  lemma TurnExtends(t: Talk, prompt: string, userMessage: string, turns: seq<seq<RawCall>>, turn: seq<RawCall>, env: Env)
    requires t.outcome == Going && IsTranscript(t, prompt, userMessage, turns, env) && turn != [] && Runnable(turn, env)
    ensures var u := AfterCalls(t.(messages := t.messages + [Assistant(turn)]), turn, env);
      u.outcome == Going && IsTranscript(u, prompt, userMessage, turns + [turn], env)
  {
    CallsRunIff(t.(messages := t.messages + [Assistant(turn)]), turn, env);
    BlocksSnoc(turns, turn, env);
    NamesSnoc(turns, turn);
  }

  lemma StepExtends(t: Talk, step: nat, prompt: string, userMessage: string, turns: seq<seq<RawCall>>, env: Env) returns (more: seq<seq<RawCall>>)
    requires t.outcome == Going && |turns| == step && Explained(t, prompt, userMessage, turns, env)
    ensures var u := AfterStep(t, step, env);
      u.outcome != Raised ==> Explained(u, prompt, userMessage, more, env) && |more| == |turns| + if u.outcome == Going then 1 else 0
    ensures AfterStep(t, step, env).outcome != TimedOut
  {
    more := turns;
    var asked := Asked(env.llm(step, t.messages));
    if asked.Some? {
      CallsRunIff(t.(messages := t.messages + [Assistant(asked.value)]), asked.value, env);
      if Runnable(asked.value, env) {
        more := turns + [asked.value];
        TurnExtends(t, prompt, userMessage, turns, asked.value, env);
        FromModelSnoc(prompt, userMessage, turns, asked.value, env);
      }
    }
  }

  lemma {:induction false} StepsExtend(t: Talk, step: nat, prompt: string, userMessage: string, turns: seq<seq<RawCall>>, env: Env) returns (more: seq<seq<RawCall>>)
    requires step <= MAX_STEPS && t.outcome == Going && |turns| == step && Explained(t, prompt, userMessage, turns, env)
    ensures var u := AfterSteps(t, step, env);
      && u.outcome != Going
      && (u.outcome != Raised ==> Explained(u, prompt, userMessage, more, env) && |more| <= MAX_STEPS)
      && (u.outcome == TimedOut ==> |more| == MAX_STEPS)
      && (u.outcome.Replied? ==> |more| < MAX_STEPS)
    decreases MAX_STEPS - step
  {
    more := turns;
    if step < MAX_STEPS {
      more := StepExtends(t, step, prompt, userMessage, turns, env);
      if AfterStep(t, step, env).outcome == Going {
        more := StepsExtend(AfterStep(t, step, env), step + 1, prompt, userMessage, more, env);
      }
    }
  }

  /**
   Whatever the model answers, a run that does not raise leaves system, user, then at most five
   turns of one assistant message with calls and one tool message per call with its id, in order,
   holding the result of the echoed arguments with the caller's id put in; tools_called is the
   turns' names; each turn is what the model asked for on the transcript so far, and the reply its
   text on all of it; the run times out exactly after five turns.
   */
  lemma Transcript(prompt: string, userMessage: string, env: Env) returns (turns: seq<seq<RawCall>>)
    ensures var t := AfterSteps(Begin(prompt, userMessage), 0, env);
      t.outcome != Raised ==>
        && IsTranscript(t, prompt, userMessage, turns, env)
        && FromModel(prompt, userMessage, turns, env)
        && |turns| <= 5
        && (t.outcome == TimedOut <==> |turns| == 5)
        && (|turns| < 5 ==>
              Asked(env.llm(|turns|, t.messages)).None? && t.outcome == Replied(TextOf(env.llm(|turns|, t.messages))))
  {
    turns := StepsExtend(Begin(prompt, userMessage), 0, prompt, userMessage, [], env);
  }

  lemma {:induction false} AnswersMatch(calls: seq<RawCall>, env: Env)
    ensures |Answers(calls, env)| == |calls| == |Names(calls)|
    ensures forall i :: 0 <= i < |calls| ==>
      Answers(calls, env)[i] == Answer(calls[i], env) && Answers(calls, env)[i].callId == calls[i].id && Names(calls)[i] == calls[i].name
  {
    if calls != [] { AnswersMatch(calls[1..], env); }
  }

  // ---------------------------------------------------------------- the caller's id

  /** No executed call carries another user's id. */
  predicate Owned(executed: seq<Call>, userId: string) {
    forall i :: 0 <= i < |executed| && executed[i].args.Object? && "user_id" in executed[i].args.fields ==>
      executed[i].args.fields["user_id"] == Text(userId)
  }

  lemma {:induction false} CallsAreOwned(t: Talk, calls: seq<RawCall>, env: Env)
    requires Owned(t.executed, env.userId)
    ensures Owned(AfterCalls(t, calls, env).executed, env.userId)
    decreases |calls|
  {
    if calls != [] && t.outcome == Going {
      CallsAreOwned(AfterCall(t, Decoded(calls[0], env.loads), env), calls[1..], env);
    }
  }

  /** In every run, even one that raises, a tool that takes user_id gets the caller's. */
  lemma {:induction false} StepsAreOwned(t: Talk, step: nat, env: Env)
    requires step <= MAX_STEPS && Owned(t.executed, env.userId)
    ensures Owned(AfterSteps(t, step, env).executed, env.userId)
    decreases MAX_STEPS - step
  {
    if t.outcome == Going && step < MAX_STEPS {
      var asked := Asked(env.llm(step, t.messages));
      if asked.Some? {
        CallsAreOwned(t.(messages := t.messages + [Assistant(asked.value)]), asked.value, env);
      }
      StepsAreOwned(AfterStep(t, step, env), step + 1, env);
    }
  }

  // ---------------------------------------------------------------- what is executed

  function AskedCalls(messages: seq<Message>): seq<RawCall> {
    if messages == [] then []
    else
      var last := messages[|messages| - 1];
      AskedCalls(messages[..|messages| - 1]) + if last.Assistant? then last.calls else []
  }

  function ToolMessages(messages: seq<Message>): seq<Message> {
    if messages == [] then []
    else
      var last := messages[|messages| - 1];
      ToolMessages(messages[..|messages| - 1]) + if last.Tool? then [last] else []
  }

  lemma MessagesSnoc(messages: seq<Message>, m: Message)
    ensures AskedCalls(messages + [m]) == AskedCalls(messages) + if m.Assistant? then m.calls else []
    ensures ToolMessages(messages + [m]) == ToolMessages(messages) + if m.Tool? then [m] else []
  {
    assert (messages + [m])[..|messages|] == messages;
  }

  /** This execution is of this call of the transcript, and this message gives its result. */
  predicate Executes(call: Call, raw: RawCall, m: Message, env: Env) {
    && call.id == raw.id && call.name == raw.name
    && SameButUserId(Decode(raw.arguments, env.loads), call.args, env.userId)
    && m == Tool(raw.id, env.execute(raw.name, call.args))
  }

  /** The executions so far are those of the first calls of the transcript, one by one. */
  predicate Matched(t: Talk, env: Env) {
    var asked, tools := AskedCalls(t.messages), ToolMessages(t.messages);
    && |t.executed| == |tools| <= |asked|
    && forall i :: 0 <= i < |tools| ==> Executes(t.executed[i], asked[i], tools[i], env)
  }

  lemma CallMatched(t: Talk, raw: RawCall, env: Env)
    requires Matched(t, env) && |t.executed| < |AskedCalls(t.messages)| && AskedCalls(t.messages)[|t.executed|] == raw
    ensures var u := AfterCall(t, Decoded(raw, env.loads), env);
      && Matched(u, env) && AskedCalls(u.messages) == AskedCalls(t.messages)
      && |u.executed| == |t.executed| + if u.outcome == Raised && t.outcome != Raised then 0 else if Used(raw, env).None? then 0 else 1
  {
    var args := Used(raw, env);
    InjectByForm(Decode(raw.arguments, env.loads), env.userId);
    if args.Some? {
      var m := Tool(raw.id, env.execute(raw.name, args.value));
      MessagesSnoc(t.messages, m);
      assert AskedCalls(t.messages) + [] == AskedCalls(t.messages);
    }
  }

  lemma {:induction false} CallsMatched(t: Talk, calls: seq<RawCall>, env: Env)
    requires Matched(t, env) && t.outcome == Going
    requires AskedCalls(t.messages)[|t.executed|..] == calls
    ensures var u := AfterCalls(t, calls, env);
      Matched(u, env) && (u.outcome == Going ==> |u.executed| == |AskedCalls(u.messages)|)
    decreases |calls|
  {
    if calls != [] {
      var asked := AskedCalls(t.messages);
      assert asked[|t.executed|] == calls[0] && asked[|t.executed| + 1..] == calls[1..];
      CallMatched(t, calls[0], env);
      var next := AfterCall(t, Decoded(calls[0], env.loads), env);
      if next.outcome == Going {
        CallsMatched(next, calls[1..], env);
      }
    }
  }

  predicate CaughtUp(t: Talk) { t.outcome == Going ==> |t.executed| == |AskedCalls(t.messages)| }

  lemma TurnMatched(t: Talk, calls: seq<RawCall>, env: Env)
    requires Matched(t, env) && t.outcome == Going && CaughtUp(t)
    ensures var u := AfterCalls(t.(messages := t.messages + [Assistant(calls)]), calls, env);
      Matched(u, env) && CaughtUp(u)
  {
    var told := t.(messages := t.messages + [Assistant(calls)]);
    MessagesSnoc(t.messages, Assistant(calls));
    Regroup(ToolMessages(t.messages), [], []);
    assert ToolMessages(told.messages) == ToolMessages(t.messages);
    CallsMatched(told, calls, env);
  }

  lemma StepMatched(t: Talk, step: nat, env: Env)
    requires Matched(t, env) && t.outcome == Going && CaughtUp(t)
    ensures Matched(AfterStep(t, step, env), env) && CaughtUp(AfterStep(t, step, env))
  {
    var asked := Asked(env.llm(step, t.messages));
    if asked.Some? {
      TurnMatched(t, asked.value, env);
    }
  }

  lemma {:induction false} StepsMatched(t: Talk, step: nat, env: Env)
    requires step <= MAX_STEPS && Matched(t, env) && CaughtUp(t)
    ensures Matched(AfterSteps(t, step, env), env)
    decreases MAX_STEPS - step
  {
    if t.outcome == Going && step < MAX_STEPS {
      StepMatched(t, step, env);
      StepsMatched(AfterStep(t, step, env), step + 1, env);
    }
  }

  lemma BeginMatched(prompt: string, userMessage: string, env: Env)
    ensures Matched(Begin(prompt, userMessage), env) && CaughtUp(Begin(prompt, userMessage))
  {
    var ms := [System(prompt), User(userMessage)];
    MessagesSnoc([System(prompt)], User(userMessage));
    MessagesSnoc([], System(prompt));
    assert [] + [System(prompt)] == [System(prompt)] && [System(prompt)] + [User(userMessage)] == ms;
  }

  /**
   In every run, even one that raises: the i-th execution is of the i-th call of the transcript, with
   its decoded arguments changed at user_id only, and the i-th tool message gives its result.
   */
  lemma ExecutedAsAsked(prompt: string, userMessage: string, env: Env)
    ensures Matched(AfterSteps(Begin(prompt, userMessage), 0, env), env)
  {
    BeginMatched(prompt, userMessage, env);
    StepsMatched(Begin(prompt, userMessage), 0, env);
  }

  /** The arguments of calls that can be read are text, or empty. */
  lemma AskedAreText(response: Response)
    requires Asked(response).Some?
    ensures Asked(response).value != [] && forall i :: 0 <= i < |Asked(response).value| ==> !Asked(response).value[i].arguments.NotText?
  {
  }

  /** Arguments that are always objects, or not JSON at all, never make a run raise. */
  lemma {:induction false} ObjectsNeverRaise(t: Talk, step: nat, env: Env)
    requires step <= MAX_STEPS && t.outcome != Raised
    requires forall raw :: env.loads(raw).Some? ==> env.loads(raw).value.Object?
    ensures AfterSteps(t, step, env).outcome != Raised
    decreases MAX_STEPS - step
  {
    if t.outcome == Going && step < MAX_STEPS {
      var asked := Asked(env.llm(step, t.messages));
      if asked.Some? {
        AskedAreText(env.llm(step, t.messages));
        CallsRunIff(t.(messages := t.messages + [Assistant(asked.value)]), asked.value, env);
      }
      ObjectsNeverRaise(AfterStep(t, step, env), step + 1, env);
    }
  }
}
