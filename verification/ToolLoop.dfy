/**
 The conversation with a model that may call tools. The model, the tools and the argument
 checks are arbitrary: the n-th request and the n-th tool call have any outcome.
 */
module ToolLoop {
  import opened Wrappers

  datatype ToolCall = ToolCall(id: string, name: string, arguments: string)

  datatype Role = System | User | Assistant | Tool

  datatype Message = Message(role: Role, content: string, reasoning: string, calls: seq<ToolCall>, callId: string)

  datatype Response = Response(content: string, reasoning: string, calls: seq<ToolCall>, finishReason: string)

  datatype Reply = Answer(resp: Response) | Failure(retryable: bool)

  datatype Error = RequestFailed | Exhausted

  datatype Env = Env(
    request: (nat, seq<Message>) -> Reply, // the n-th request
    handle: (nat, ToolCall) -> Result<string, string>, // the n-th tool call
    validate: seq<ToolCall> -> Option<string>, // what is wrong with the arguments of some calls
    toolError: string -> string,
    blank: string -> bool, // strings.TrimSpace leaves nothing
    retryCount: int)

  const FEEDBACK_HEAD := "Your previous tool_calls failed argument validation: "
  const FEEDBACK_TAIL := ". Re-issue valid tool_calls only with correct JSON arguments matching each tool schema."
  const NO_RESULT := "Error: tool execution failed"

  // ---- One completion ----

  function Feedback(problem: string): Message {
    Message(User, FEEDBACK_HEAD + problem + FEEDBACK_TAIL, "", [], "")
  }

  /** Tool calls whose arguments do not fit. */
  predicate Unusable(env: Env, reply: Reply) {
    reply.Answer? && reply.resp.calls != [] && env.validate(reply.resp.calls).Some?
  }

  /** An attempt after which there may be another. */
  predicate TriesAgain(env: Env, reply: Reply) {
    Unusable(env, reply) || reply == Failure(true)
  }

  // What was sent, and the reply.
  datatype Attempt = Attempt(msgs: seq<Message>, reply: Reply)

  /** The feedback carried after some attempts: that on the latest unusable answer. */
  function FeedbackAfter(env: Env, tries: seq<Attempt>): seq<Message> {
    if tries == [] then []
    else
      var reply := tries[|tries| - 1].reply;
      if Unusable(env, reply) then [Feedback(env.validate(reply.resp.calls).value)]
      else FeedbackAfter(env, tries[..|tries| - 1])
  }

  /** The attempts for one completion, the first being the n-th request. */
  predicate IsSlot(env: Env, n: nat, base: seq<Message>, tries: seq<Attempt>) {
    tries == [] || (
      var before, last := tries[..|tries| - 1], tries[|tries| - 1];
      && IsSlot(env, n, base, before)
      && (before != [] ==> TriesAgain(env, before[|before| - 1].reply))
      && last.msgs == base + FeedbackAfter(env, before)
      && last.reply == env.request(n + |before|, last.msgs))
  }

  function Attempts(env: Env): nat {
    if env.retryCount < 0 then 0 else env.retryCount + 1
  }

  /** How a completion ends, from the attempts made for it. */
  function SlotResult(env: Env, tries: seq<Attempt>): Result<Response, Error> {
    if tries == [] then Err(Exhausted)
    else
      var reply := tries[|tries| - 1].reply;
      if TriesAgain(env, reply) then Err(Exhausted)
      else if reply.Failure? then Err(RequestFailed)
      else Ok(reply.resp)
  }

  /** A retry is given up only when all attempts are used up. */
  predicate SlotOver(env: Env, tries: seq<Attempt>) {
    |tries| <= Attempts(env)
    && (|tries| < Attempts(env) ==> tries != [] && !TriesAgain(env, tries[|tries| - 1].reply))
  }

  lemma OneMoreAttempt(env: Env, n: nat, base: seq<Message>, tries: seq<Attempt>, last: Attempt)
    requires IsSlot(env, n, base, tries) && (tries != [] ==> TriesAgain(env, tries[|tries| - 1].reply))
    requires last.msgs == base + FeedbackAfter(env, tries) && last.reply == env.request(n + |tries|, last.msgs)
    ensures IsSlot(env, n, base, tries + [last])
    ensures FeedbackAfter(env, tries + [last]) ==
      if Unusable(env, last.reply) then [Feedback(env.validate(last.reply.resp.calls).value)]
      else FeedbackAfter(env, tries)
  {
    assert (tries + [last])[..|tries|] == tries;
  }

  // The feedback that the next attempt carries.
  predicate Carries(env: Env, tries: seq<Attempt>, feedback: Option<string>) {
    FeedbackAfter(env, tries) == if feedback.Some? then [Feedback(feedback.value)] else []
  }

  // One attempt, its reply, and the feedback for the next.
  method Send(env: Env, n: nat, base: seq<Message>, feedback: Option<string>, tries: seq<Attempt>)
    returns (reply: Reply, more: seq<Attempt>)
    requires IsSlot(env, n, base, tries) && Carries(env, tries, feedback)
    requires tries != [] ==> TriesAgain(env, tries[|tries| - 1].reply)
    ensures IsSlot(env, n, base, more) && |more| == |tries| + 1 && more[|tries|].reply == reply
    ensures Carries(env, more, if Unusable(env, reply) then env.validate(reply.resp.calls) else feedback)
  {
    var msgs := base;
    if feedback.Some? {
      msgs := msgs + [Feedback(feedback.value)];
    }
    assert msgs == base + FeedbackAfter(env, tries);
    reply := env.request(n + |tries|, msgs);
    more := tries + [Attempt(msgs, reply)];
    OneMoreAttempt(env, n, base, tries, Attempt(msgs, reply));
  }

  /** requestCompletionSlot; it also returns what was sent, for the record. */
  method RequestCompletionSlot(env: Env, n: nat, base: seq<Message>)
    returns (r: Result<Response, Error>, n': nat, tries: seq<Attempt>)
    ensures IsSlot(env, n, base, tries) && SlotOver(env, tries) && r == SlotResult(env, tries)
    ensures n' == n + |tries| && (if env.retryCount < 0 then tries == [] else |tries| <= env.retryCount + 1)
    ensures EndsAs(env, tries, r)
  {
    var feedback: Option<string> := None;
    tries := [];
    n' := n;
    var attempt := 0;
    while attempt <= env.retryCount
      invariant 0 <= attempt <= Attempts(env) && |tries| == attempt && n' == n + |tries|
      invariant IsSlot(env, n, base, tries) && Carries(env, tries, feedback)
      invariant tries != [] ==> TriesAgain(env, tries[|tries| - 1].reply)
      decreases env.retryCount - attempt
    {
      var reply;
      reply, tries := Send(env, n, base, feedback, tries);
      n', attempt := n' + 1, attempt + 1;
      match reply {
        case Failure(retryable) =>
          if !retryable {
            SlotEnds(env, n, base, tries);
            return Err(RequestFailed), n', tries;
          }
        case Answer(resp) =>
          if resp.calls == [] {
            SlotEnds(env, n, base, tries);
            return Ok(resp), n', tries;
          }
          var problem := env.validate(resp.calls);
          if problem.None? {
            SlotEnds(env, n, base, tries);
            return Ok(resp), n', tries;
          }
          feedback := problem;
      }
    }
    SlotEnds(env, n, base, tries);
    return Err(Exhausted), n', tries;
  }

  /** An answer that has tool calls with invalid arguments, or a failure that is worth another try. */
  predicate Unsettled(env: Env, reply: Reply) {
    match reply {
      case Answer(resp) => resp.calls != [] && env.validate(resp.calls) != None
      case Failure(retryable) => retryable
    }
  }

  /**
   The last attempt decides: its answer, if it has no tool calls or valid ones, is the result; a
   failure for good is an error; and only when all attempts are unsettled is the completion given up.
   */
  ghost predicate EndsAs(env: Env, tries: seq<Attempt>, r: Result<Response, Error>) {
    && (forall k :: 0 <= k < |tries| - 1 ==> Unsettled(env, tries[k].reply))
    && match r {
      case Ok(resp) =>
        tries != [] && tries[|tries| - 1].reply == Answer(resp)
        && (resp.calls == [] || env.validate(resp.calls) == None)
      case Err(RequestFailed) => tries != [] && tries[|tries| - 1].reply == Failure(false)
      case Err(Exhausted) =>
        |tries| == (if env.retryCount < 0 then 0 else env.retryCount + 1)
        && (tries != [] ==> Unsettled(env, tries[|tries| - 1].reply))
    }
  }

  lemma {:induction false} EarlierUnsettled(env: Env, n: nat, base: seq<Message>, tries: seq<Attempt>, k: nat)
    requires IsSlot(env, n, base, tries) && k < |tries| - 1
    ensures Unsettled(env, tries[k].reply)
  {
    if k < |tries| - 2 {
      EarlierUnsettled(env, n, base, tries[..|tries| - 1], k);
    }
  }

  lemma SlotEnds(env: Env, n: nat, base: seq<Message>, tries: seq<Attempt>)
    requires IsSlot(env, n, base, tries) && SlotOver(env, tries)
    ensures EndsAs(env, tries, SlotResult(env, tries))
  {
    forall k | 0 <= k < |tries| - 1
      ensures Unsettled(env, tries[k].reply)
    {
      EarlierUnsettled(env, n, base, tries, k);
    }
  }

  /** Every attempt sends the conversation and at most one feedback, which is not kept. */
  lemma {:induction false} AtMostOneFeedback(env: Env, n: nat, base: seq<Message>, tries: seq<Attempt>, k: nat)
    requires IsSlot(env, n, base, tries) && k < |tries|
    ensures tries[k].msgs == base + FeedbackAfter(env, tries[..k]) && |FeedbackAfter(env, tries[..k])| <= 1
    ensures k == 0 ==> tries[k].msgs == base
  {
    if k < |tries| - 1 {
      AtMostOneFeedback(env, n, base, tries[..|tries| - 1], k);
      assert tries[..|tries| - 1][..k] == tries[..k];
    }
    FeedbackIsOne(env, tries[..k]);
  }

  /** The message that tells the model what was wrong with its tool calls. */
  predicate TellsProblem(m: Message, problem: string) {
    && m.role == User && m.reasoning == "" && m.calls == [] && m.callId == ""
    && m.content == "Your previous tool_calls failed argument validation: " + problem
                    + ". Re-issue valid tool_calls only with correct JSON arguments matching each tool schema."
  }

  // The i-th attempt is the last with invalid tool calls.
  predicate LastInvalid(env: Env, tries: seq<Attempt>, i: nat) {
    && i < |tries| && tries[i].reply.Answer? && tries[i].reply.resp.calls != []
    && env.validate(tries[i].reply.resp.calls) != None
    && forall j :: i < j < |tries| ==>
         tries[j].reply.Failure? || tries[j].reply.resp.calls == [] || env.validate(tries[j].reply.resp.calls) == None
  }

  /** The feedback that a request carries tells what was wrong with the latest invalid tool calls, if there were any. */
  lemma {:induction false} FeedbackIsLatest(env: Env, tries: seq<Attempt>)
    ensures var f := FeedbackAfter(env, tries);
      if f == [] then
        forall i :: 0 <= i < |tries| ==>
          tries[i].reply.Failure? || tries[i].reply.resp.calls == [] || env.validate(tries[i].reply.resp.calls) == None
      else
        |f| == 1 && exists i: nat ::
          LastInvalid(env, tries, i) && TellsProblem(f[0], env.validate(tries[i].reply.resp.calls).value)
  {
    if tries != [] {
      var n := |tries| - 1;
      var before, f := tries[..n], FeedbackAfter(env, tries);
      FeedbackIsLatest(env, before);
      if Unusable(env, tries[n].reply) {
        assert LastInvalid(env, tries, n);
      } else if f != [] {
        var i: nat :| LastInvalid(env, before, i)
                      && TellsProblem(f[0], env.validate(before[i].reply.resp.calls).value);
        assert LastInvalid(env, tries, i);
      }
    }
  }

  lemma {:induction false} FeedbackIsOne(env: Env, tries: seq<Attempt>)
    ensures |FeedbackAfter(env, tries)| <= 1
  {
    if tries != [] {
      FeedbackIsOne(env, tries[..|tries| - 1]);
    }
  }

  // ---- The loop ----

  /** The text a tool call leaves in the conversation. */
  function ToolText(env: Env, k: nat, call: ToolCall): string {
    match env.handle(k, call) {
      case Ok(text) => text
      case Err(error) => if env.blank(env.toolError(error)) then NO_RESULT else env.toolError(error)
    }
  }

  /** What the handler returned, or its error as text, or a fixed text if that is blank. */
  predicate TellsOutcome(env: Env, text: string, outcome: Result<string, string>) {
    match outcome {
      case Ok(result) => text == result
      case Err(error) =>
        if env.blank(env.toolError(error)) then text == "Error: tool execution failed" else text == env.toolError(error)
    }
  }

  // An answer with tool calls, and the texts of their results.
  datatype Round = Round(resp: Response, results: seq<string>)

  function AssistantMessage(resp: Response): Message {
    Message(Assistant, resp.content, resp.reasoning, resp.calls, "")
  }

  function ResultMessages(calls: seq<ToolCall>, results: seq<string>): seq<Message>
    requires |results| <= |calls|
  {
    seq(|results|, j requires 0 <= j < |results| => Message(Tool, results[j], "", [], calls[j].id))
  }

  /** One assistant message, then exactly its tool results, in call order and with their IDs. */
  function Block(round: Round): seq<Message>
    requires |round.results| <= |round.resp.calls|
  {
    [AssistantMessage(round.resp)] + ResultMessages(round.resp.calls, round.results)
  }

  predicate Complete(rounds: seq<Round>) {
    forall i :: 0 <= i < |rounds| ==> |rounds[i].results| == |rounds[i].resp.calls|
  }

  /** The conversation after some rounds. */
  function Conversation(initial: seq<Message>, rounds: seq<Round>): seq<Message>
    requires Complete(rounds)
  {
    if rounds == [] then initial
    else Conversation(initial, rounds[..|rounds| - 1]) + Block(rounds[|rounds| - 1])
  }

  /** The tool calls of all rounds, in order. */
  function AllCalls(rounds: seq<Round>): seq<ToolCall> {
    if rounds == [] then [] else AllCalls(rounds[..|rounds| - 1]) + rounds[|rounds| - 1].resp.calls
  }

  function ExecutedBefore(rounds: seq<Round>): nat {
    |AllCalls(rounds)|
  }

  function SentBefore(slots: seq<seq<Attempt>>): nat {
    if slots == [] then 0 else SentBefore(slots[..|slots| - 1]) + |slots[|slots| - 1]|
  }

  // The last round acts on the answer of the last completion, whose tool calls are valid.
  predicate RoundOf(env: Env, slots: seq<seq<Attempt>>, rounds: seq<Round>)
    requires slots != [] && rounds != []
  {
    var round, k := rounds[|rounds| - 1], ExecutedBefore(rounds[..|rounds| - 1]);
    && SlotResult(env, slots[|slots| - 1]) == Ok(round.resp)
    && round.resp.calls != [] && env.validate(round.resp.calls) == None
    && |round.results| == |round.resp.calls|
    && forall j :: 0 <= j < |round.results| ==> round.results[j] == ToolText(env, k + j, round.resp.calls[j])
  }

  /**
   A run of the loop: completions and rounds take turns; a completion has before it the
   conversation of the rounds so far.
   */
  predicate IsRun(env: Env, initial: seq<Message>, slots: seq<seq<Attempt>>, rounds: seq<Round>)
    decreases |slots| + |rounds|
  {
    Complete(rounds) &&
    if |slots| == |rounds| + 1 then
      var before := slots[..|rounds|];
      && IsRun(env, initial, before, rounds)
      && IsSlot(env, SentBefore(before), Conversation(initial, rounds), slots[|rounds|])
      && SlotOver(env, slots[|rounds|])
    else
      |slots| == |rounds|
      && (slots != [] ==> IsRun(env, initial, slots, rounds[..|rounds| - 1]) && RoundOf(env, slots, rounds))
  }

  // `handled` are the calls handed to the tool handler so far.
  method ExecuteCalls(env: Env, handled: seq<ToolCall>, messages: seq<Message>, calls: seq<ToolCall>)
    returns (more: seq<Message>, handled': seq<ToolCall>, results: seq<string>)
    ensures |results| == |calls| && handled' == handled + calls
    ensures forall j :: 0 <= j < |calls| ==> results[j] == ToolText(env, |handled| + j, calls[j])
    ensures more == messages + ResultMessages(calls, results)
    ensures forall j :: 0 <= j < |calls| ==> TellsOutcome(env, results[j], env.handle(|handled| + j, calls[j]))
  {
    more, results, handled' := messages, [], handled;
    for j := 0 to |calls|
      invariant |results| == j && more == messages + ResultMessages(calls, results)
      invariant handled' == handled + calls[..j]
      invariant forall i :: 0 <= i < j ==> results[i] == ToolText(env, |handled| + i, calls[i])
    {
      var outcome := env.handle(|handled'|, calls[j]);
      handled' := handled' + [calls[j]];
      var text;
      match outcome {
        case Ok(result) => text := result;
        case Err(error) =>
          text := env.toolError(error);
          if env.blank(text) {
            text := NO_RESULT;
          }
      }
      more, results := more + [Message(Tool, text, "", [], calls[j].id)], results + [text];
    }
    assert calls[..|calls|] == calls;
  }

  lemma AddRound(env: Env, initial: seq<Message>, slots: seq<seq<Attempt>>, rounds: seq<Round>, round: Round)
    requires IsRun(env, initial, slots, rounds) && |slots| == |rounds| + 1 && RoundOf(env, slots, rounds + [round])
    ensures var more := rounds + [round];
      && IsRun(env, initial, slots, more) && Conversation(initial, more) == Conversation(initial, rounds) + Block(round)
      && ExecutedBefore(more) == ExecutedBefore(rounds) + |round.resp.calls|
  {
    assert (rounds + [round])[..|rounds|] == rounds;
  }

  lemma AddSlot(env: Env, initial: seq<Message>, slots: seq<seq<Attempt>>, rounds: seq<Round>, tries: seq<Attempt>)
    requires IsRun(env, initial, slots, rounds) && |slots| == |rounds|
    requires IsSlot(env, SentBefore(slots), Conversation(initial, rounds), tries) && SlotOver(env, tries)
    ensures IsRun(env, initial, slots + [tries], rounds) && SentBefore(slots + [tries]) == SentBefore(slots) + |tries|
  {
    assert (slots + [tries])[..|slots|] == slots;
  }

  lemma RoundIsNext(env: Env, slots: seq<seq<Attempt>>, rounds: seq<Round>, round: Round)
    requires slots != [] && SlotResult(env, slots[|slots| - 1]) == Ok(round.resp) && round.resp.calls != []
    requires |round.results| == |round.resp.calls|
    requires forall j :: 0 <= j < |round.results| ==>
      round.results[j] == ToolText(env, ExecutedBefore(rounds) + j, round.resp.calls[j])
    ensures RoundOf(env, slots, rounds + [round])
  {
    assert (rounds + [round])[..|rounds|] == rounds;
  }

  function Max0(n: int): nat {
    if n < 0 then 0 else n
  }

  // Where the loop stands.
  ghost predicate Standing(env: Env, initial: seq<Message>, slots: seq<seq<Attempt>>, rounds: seq<Round>,
                           messages: seq<Message>, n: nat, handled: seq<ToolCall>, r: Result<Response, Error>)
  {
    && IsRun(env, initial, slots, rounds) && |slots| == |rounds| + 1
    && messages == Conversation(initial, rounds) && n == SentBefore(slots) && handled == AllCalls(rounds)
    && SlotResult(env, slots[|rounds|]) == r
  }

  // The body of the loop: executes the tool calls of an answer and asks for the next one.
  method RunRound(env: Env, resp: Response, messages: seq<Message>, n: nat, handled: seq<ToolCall>,
                  ghost initial: seq<Message>, slots: seq<seq<Attempt>>, rounds: seq<Round>)
    returns (r: Result<Response, Error>, messages': seq<Message>, n': nat, handled': seq<ToolCall>,
             slots': seq<seq<Attempt>>, rounds': seq<Round>)
    requires Standing(env, initial, slots, rounds, messages, n, handled, Ok(resp)) && resp.calls != []
    ensures Standing(env, initial, slots', rounds', messages', n', handled', r) && |rounds'| == |rounds| + 1
  {
    var results, tries;
    messages' := messages + [AssistantMessage(resp)];
    messages', handled', results := ExecuteCalls(env, handled, messages', resp.calls);
    var round := Round(resp, results);
    RoundIsNext(env, slots, rounds, round);
    AddRound(env, initial, slots, rounds, round);
    rounds' := rounds + [round];
    assert messages' == messages + Block(round);
    r, n', tries := RequestCompletionSlot(env, n, messages');
    AddSlot(env, initial, slots, rounds', tries);
    slots' := slots + [tries];
  }

  /**
   runToolLoop; it also returns what was sent and executed, for the record. That is a run, and
   the tool handler got the calls of its rounds and no other; the answer returned is the last
   one and has no tool calls, and there are at most maxIterations rounds.
   */
  method RunToolLoop(env: Env, initial: seq<Message>, maxIterations: int)
    returns (r: Result<Response, Error>, slots: seq<seq<Attempt>>, rounds: seq<Round>, handled: seq<ToolCall>)
    ensures IsRun(env, initial, slots, rounds) && |slots| == |rounds| + 1 && |rounds| <= Max0(maxIterations)
    ensures handled == AllCalls(rounds)
    ensures var last := SlotResult(env, slots[|rounds|]);
      && r == (if last.Ok? then Ok(last.value.(calls := [])) else last)
      && (last.Ok? && last.value.calls != [] ==> |rounds| == Max0(maxIterations))
  {
    var messages := initial;
    var n, i := 0, 0;
    rounds, handled := [], [];
    var tries;
    r, n, tries := RequestCompletionSlot(env, 0, messages);
    AddSlot(env, initial, [], [], tries);
    slots := [] + [tries];
    if r.Err? {
      return;
    }
    var resp := r.value;
    while i < maxIterations && resp.calls != []
      invariant 0 <= i <= Max0(maxIterations) && |rounds| == i
      invariant Standing(env, initial, slots, rounds, messages, n, handled, Ok(resp))
      decreases maxIterations - i
    {
      r, messages, n, handled, slots, rounds := RunRound(env, resp, messages, n, handled, initial, slots, rounds);
      i := i + 1;
      if r.Err? {
        return;
      }
      resp := r.value;
    }
    if resp.calls != [] {
      resp := resp.(calls := []);
    }
    r := Ok(resp);
  }

  // ---- What holds of every run ----

  lemma {:induction false} SentAtMost(env: Env, initial: seq<Message>, slots: seq<seq<Attempt>>, rounds: seq<Round>)
    requires IsRun(env, initial, slots, rounds)
    ensures SentBefore(slots) <= |slots| * Attempts(env)
    decreases |slots| + |rounds|
  {
    if |slots| == |rounds| + 1 {
      SentAtMost(env, initial, slots[..|rounds|], rounds);
    } else if slots != [] {
      SentAtMost(env, initial, slots, rounds[..|rounds| - 1]);
    }
  }

  lemma MoreTimes(a: nat, b: nat, n: nat)
    requires a <= b
    ensures a * n <= b * n
  {
  }

  /** There are at most (maxIterations + 1) * (retryCount + 1) requests. */
  lemma RequestsAreBounded(env: Env, initial: seq<Message>, slots: seq<seq<Attempt>>, rounds: seq<Round>,
                           maxIterations: int)
    requires IsRun(env, initial, slots, rounds) && |slots| == |rounds| + 1 && |rounds| <= Max0(maxIterations)
    ensures SentBefore(slots) <= (Max0(maxIterations) + 1) * Attempts(env)
  {
    SentAtMost(env, initial, slots, rounds);
    MoreTimes(|slots|, Max0(maxIterations) + 1, Attempts(env));
  }

  /** A request is the conversation of the rounds before it, and at most one feedback. */
  lemma {:induction false} RequestShape(env: Env, initial: seq<Message>, slots: seq<seq<Attempt>>, rounds: seq<Round>,
                                        i: nat, k: nat)
    requires IsRun(env, initial, slots, rounds) && i < |slots| && k < |slots[i]|
    ensures i <= |rounds| && Complete(rounds[..i])
    ensures var base := Conversation(initial, rounds[..i]);
      slots[i][k].msgs == base + FeedbackAfter(env, slots[i][..k]) && |FeedbackAfter(env, slots[i][..k])| <= 1
    decreases |slots| + |rounds|
  {
    if |slots| == |rounds| + 1 {
      if i == |rounds| {
        AtMostOneFeedback(env, SentBefore(slots[..i]), Conversation(initial, rounds), slots[i], k);
        assert rounds[..i] == rounds;
      } else {
        RequestShape(env, initial, slots[..|rounds|], rounds, i, k);
      }
    } else {
      RequestShape(env, initial, slots, rounds[..|rounds| - 1], i, k);
      assert rounds[..|rounds| - 1][..i] == rounds[..i];
    }
  }

  /** Only tool calls whose arguments are valid are executed, and they are those of an answer. */
  lemma {:induction false} OnlyValidCallsExecuted(env: Env, initial: seq<Message>, slots: seq<seq<Attempt>>,
                                                  rounds: seq<Round>, i: nat)
    requires IsRun(env, initial, slots, rounds) && i < |rounds|
    ensures i < |slots| && SlotResult(env, slots[i]) == Ok(rounds[i].resp) && env.validate(rounds[i].resp.calls) == None
    ensures |rounds[i].results| == |rounds[i].resp.calls| > 0
    decreases |slots| + |rounds|
  {
    if |slots| == |rounds| + 1 {
      OnlyValidCallsExecuted(env, initial, slots[..|rounds|], rounds, i);
    } else if i < |rounds| - 1 {
      OnlyValidCallsExecuted(env, initial, slots, rounds[..|rounds| - 1], i);
    }
  }

  /** The text of a tool result is what the handler made of that call, the calls being counted over all rounds. */
  lemma {:induction false} ResultsTellOutcomes(env: Env, initial: seq<Message>, slots: seq<seq<Attempt>>,
                                               rounds: seq<Round>, i: nat, j: nat)
    requires IsRun(env, initial, slots, rounds) && i < |rounds| && j < |rounds[i].resp.calls|
    ensures |rounds[i].results| == |rounds[i].resp.calls|
    ensures TellsOutcome(env, rounds[i].results[j],
                         env.handle(|AllCalls(rounds[..i])| + j, rounds[i].resp.calls[j]))
    decreases |slots| + |rounds|
  {
    if |slots| == |rounds| + 1 {
      ResultsTellOutcomes(env, initial, slots[..|rounds|], rounds, i, j);
    } else if i < |rounds| - 1 {
      ResultsTellOutcomes(env, initial, slots, rounds[..|rounds| - 1], i, j);
      assert rounds[..|rounds| - 1][..i] == rounds[..i];
    }
  }

  /** So whatever is executed is a call of a valid answer. */
  lemma {:induction false} ExecutedIsOfValidAnswer(env: Env, initial: seq<Message>, slots: seq<seq<Attempt>>,
                                                   rounds: seq<Round>, call: ToolCall)
    requires IsRun(env, initial, slots, rounds) && call in AllCalls(rounds)
    ensures exists i :: 0 <= i < |rounds| && call in rounds[i].resp.calls
                        && env.validate(rounds[i].resp.calls) == None
                        && i < |slots| && SlotResult(env, slots[i]) == Ok(rounds[i].resp)
    decreases |slots| + |rounds|
  {
    var last := |rounds| - 1;
    if |slots| == |rounds| + 1 {
      ExecutedIsOfValidAnswer(env, initial, slots[..|rounds|], rounds, call);
    } else if call in rounds[last].resp.calls {
      OnlyValidCallsExecuted(env, initial, slots, rounds, last);
    } else {
      ExecutedIsOfValidAnswer(env, initial, slots, rounds[..last], call);
    }
  }

  // ---- The conversation message by message ----

  /** Where the block of the i-th round begins. */
  function BlockStart(initial: seq<Message>, rounds: seq<Round>, i: nat): nat
    requires i <= |rounds|
  {
    if i == 0 then |initial| else BlockStart(initial, rounds, i - 1) + 1 + |rounds[i - 1].resp.calls|
  }

  lemma {:induction false} BlockStartOfPrefix(initial: seq<Message>, rounds: seq<Round>, n: nat, i: nat)
    requires i <= n <= |rounds|
    ensures BlockStart(initial, rounds[..n], i) == BlockStart(initial, rounds, i)
  {
    if i > 0 {
      BlockStartOfPrefix(initial, rounds, n, i - 1);
    }
  }

  predicate IsResultOf(c: seq<Message>, k: nat, call: ToolCall, text: string) {
    && k < |c| && c[k].role == Tool && c[k].callId == call.id && c[k].content == text
    && c[k].reasoning == "" && c[k].calls == []
  }

  predicate BlockAt(c: seq<Message>, at: nat, round: Round)
    requires |round.results| == |round.resp.calls|
  {
    && at < |c| && c[at].role == Assistant && c[at].content == round.resp.content
    && c[at].reasoning == round.resp.reasoning && c[at].calls == round.resp.calls && c[at].callId == ""
    && forall j :: 0 <= j < |round.resp.calls| ==> IsResultOf(c, at + 1 + j, round.resp.calls[j], round.results[j])
  }

  lemma BlockLayout(before: seq<Message>, round: Round)
    requires |round.results| == |round.resp.calls|
    ensures BlockAt(before + Block(round), |before|, round)
  {
    var block, calls := Block(round), round.resp.calls;
    assert |block| == 1 + |calls| && (before + block)[|before|] == block[0];
    forall j | 0 <= j < |calls|
      ensures IsResultOf(before + block, |before| + 1 + j, calls[j], round.results[j])
    {
      assert (before + block)[|before| + 1 + j] == block[1 + j];
    }
  }

  lemma KeptInFront(before: seq<Message>, more: seq<Message>, at: nat, round: Round)
    requires |round.results| == |round.resp.calls| && BlockAt(before, at, round)
    ensures BlockAt(before + more, at, round)
  {
    var calls := round.resp.calls;
    assert (before + more)[at] == before[at];
    forall j | 0 <= j < |calls|
      ensures IsResultOf(before + more, at + 1 + j, calls[j], round.results[j])
    {
      assert IsResultOf(before, at + 1 + j, calls[j], round.results[j]);
    }
  }

  /**
   The conversation is the initial messages, then for each round one assistant message with the
   answer's content, reasoning and calls, followed by exactly its tool results, in call order, with
   matching IDs and the results' texts.
   */
  lemma {:induction false} ConversationInBlocks(initial: seq<Message>, rounds: seq<Round>, i: nat)
    requires Complete(rounds) && i < |rounds|
    ensures var c, at := Conversation(initial, rounds), BlockStart(initial, rounds, i);
      initial <= c && |c| == BlockStart(initial, rounds, |rounds|) && BlockAt(c, at, rounds[i])
  {
    var n := |rounds| - 1;
    BlockStartOfPrefix(initial, rounds, n, n);
    ConversationLength(initial, rounds[..n]);
    ConversationLength(initial, rounds);
    var before := Conversation(initial, rounds[..n]);
    var c, block := Conversation(initial, rounds), Block(rounds[n]);
    assert c == before + block;
    if i == n {
      BlockLayout(before, rounds[n]);
    } else {
      ConversationInBlocks(initial, rounds[..n], i);
      BlockStartOfPrefix(initial, rounds, n, i);
      KeptInFront(before, block, BlockStart(initial, rounds, i), rounds[i]);
    }
  }

  lemma {:induction false} ConversationLength(initial: seq<Message>, rounds: seq<Round>)
    requires Complete(rounds)
    ensures initial <= Conversation(initial, rounds)
    ensures |Conversation(initial, rounds)| == BlockStart(initial, rounds, |rounds|)
  {
    if rounds != [] {
      ConversationLength(initial, rounds[..|rounds| - 1]);
      BlockStartOfPrefix(initial, rounds, |rounds| - 1, |rounds| - 1);
    }
  }
}
