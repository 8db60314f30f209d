/**
  The conversation-thread store of `AgentWithTools`: a dictionary from thread id to the
  ordered list of role/content messages of that thread, updated in place, and the
  bookkeeping `run_with_thread` does on it around one chat completion.
 */
module Threads {
  import opened Wrappers
  import opened Text
  import opened Tools
  import opened ToolDetection

  /** One chat message, `{"role": ..., "content": ...}`. */
  datatype Message = Message(role: string, content: string)

  /** The prompt every thread starts with. */
  const SystemPrompt: string :=
    "You are a helpful assistant with access to weather and calculator tools.\n"
    + "                \n"
    + "Available tools:\n"
    + "- get_weather(location): Get weather information for a location\n"
    + "- calculate(expression): Perform mathematical calculations\n"
    + "\n"
    + "When a user asks about weather, use the get_weather tool.\n"
    + "When a user asks for calculations, use the calculate tool.\n"
    + "Always be helpful and provide clear responses."

  const SystemMessage: Message := Message("system", SystemPrompt)

  type ThreadMap = map<string, seq<Message>>

  /** The store's invariant: every thread begins with the system message. */
  predicate StartsWithSystem(threads: ThreadMap) {
    forall id :: id in threads ==> |threads[id]| > 0 && threads[id][0] == SystemMessage
  }

  /** The id `create_thread` makes up when none is given: `f"thread_{n}"`. */
  function ThreadId(n: nat): string {
    "thread_" + NatToString(n)
  }

  /** Generated ids differ for different counts. */
  lemma ThreadIdInjective(a: nat, b: nat)
    requires ThreadId(a) == ThreadId(b)
    ensures a == b
  {
    assert NatToString(a) == ThreadId(a)[7..] == ThreadId(b)[7..] == NatToString(b);
    NatToStringInjective(a, b);
  }

  /** Generated ids are not checked against the store: once "thread_2" was created by
      name in a store of one thread, the next generated id is "thread_2" again, and
      `create_thread` then replaces that thread. */
  lemma {:induction false} GeneratedIdMayBeTaken()
    ensures var threads := map["thread_2" := [SystemMessage]];
      ThreadId(|threads| + 1) in threads
  {
    var threads := map["thread_2" := [SystemMessage]];
    assert |threads| == 1;
    assert NatToString(2) == [DigitChar(2)] == "2";
    assert ThreadId(2) == "thread_2";
  }

  /** The thread `add_message_to_thread` appends to: the stored one, or a fresh thread
      holding only the system message when the id is unknown. */
  function ThreadOrFresh(threads: ThreadMap, id: string): seq<Message> {
    if id in threads then threads[id] else [SystemMessage]
  }

  /** The store after `add_message_to_thread(id, m.role, m.content)`. */
  function Appended(threads: ThreadMap, id: string, m: Message): ThreadMap {
    threads[id := ThreadOrFresh(threads, id) + [m]]
  }

  /** Appending adds exactly one message at the end of the target thread, creating the
      thread with its system message first when it is missing, and touches no other
      thread; the invariant is kept. */
  lemma AppendedSpec(threads: ThreadMap, id: string, m: Message)
    ensures var after := Appended(threads, id, m);
      && after.Keys == threads.Keys + {id}
      && (id in threads ==> after[id] == threads[id] + [m])
      && (id !in threads ==> after[id] == [SystemMessage, m])
      && (forall other :: other in threads && other != id ==> after[other] == threads[other])
      && (StartsWithSystem(threads) ==> StartsWithSystem(after))
  {
  }

  /** After an append the thread has at least two messages, and the new one is last,
      after the thread as it was (or the fresh system message). */
  lemma AppendedLast(threads: ThreadMap, id: string, m: Message)
    requires StartsWithSystem(threads)
    ensures var t := Appended(threads, id, m)[id];
      && |t| > 1 && t[|t| - 1] == m && t[..|t| - 1] == ThreadOrFresh(threads, id)
  {
    var t := Appended(threads, id, m)[id];
    assert t[..|t| - 1] == ThreadOrFresh(threads, id);
  }

  // ---------------------------------------------------------------------------------------
  // run_with_thread

  /** What the chat completion call gave: the reply's text, or the message of the exception
      raised while obtaining it. */
  datatype Completion = Replied(text: string) | Failed(error: string)

  /** What the selected tool returns; `evaluate` stands for Python's `eval`. */
  function ToolResult(tool: ToolUse, evaluate: string -> EvalOutcome): string
    requires !tool.NoTool?
  {
    match tool
    case UseWeather(location) => GetWeather(location)
    case UseCalculator(expression) => Calculate(expression, evaluate)
  }

  /** The user message with the tool's result attached. */
  function Enhanced(message: string, toolResult: string): string {
    message + "\n\nTool result: " + toolResult
    + "\n\nPlease provide a helpful response based on this information."
  }

  /** The content the user message has once the chosen tool, if any, has run. */
  function UserContent(message: string, tool: ToolUse, evaluate: string -> EvalOutcome): string {
    if tool.NoTool? then message else Enhanced(message, ToolResult(tool, evaluate))
  }

  /** The text `run_with_thread` returns and stores as the assistant's message. */
  function ReplyText(c: Completion): string {
    match c
    case Replied(text) => text
    case Failed(error) => "Error processing message: " + error
  }

  /** The messages sent to the chat completion: the thread with the user message added,
      its content being `content` once the chosen tool, if any, has run. */
  function SentMessages(threads: ThreadMap, id: string, content: string): seq<Message> {
    ThreadOrFresh(threads, id) + [Message("user", content)]
  }

  /** The store after `run_with_thread` on thread `id`, when the user message ended up with
      `content` and the chat completion behaves as `complete`. */
  function AfterRun(threads: ThreadMap, id: string, content: string,
                    complete: seq<Message> -> Completion): ThreadMap
  {
    var sent := SentMessages(threads, id, content);
    threads[id := sent + [Message("assistant", ReplyText(complete(sent)))]]
  }

  /** A run, successful or not, grows the target thread by exactly two messages, the user's
      and the assistant's, keeps what was there, touches no other thread and keeps the
      invariant. The assistant's message is the reply to the thread as sent. */
  lemma AfterRunSpec(threads: ThreadMap, id: string, content: string,
                     complete: seq<Message> -> Completion)
    ensures var before := ThreadOrFresh(threads, id);
      var after := AfterRun(threads, id, content, complete);
      && after.Keys == threads.Keys + {id}
      && |after[id]| == |before| + 2
      && after[id][..|before|] == before
      && after[id][|before|] == Message("user", content)
      && after[id][|before| + 1].role == "assistant"
      && after[id][|before| + 1].content == ReplyText(complete(after[id][..|before| + 1]))
      && (forall other :: other in threads && other != id ==> after[other] == threads[other])
      && (StartsWithSystem(threads) ==> StartsWithSystem(after))
  {
    var before := ThreadOrFresh(threads, id);
    var sent := SentMessages(threads, id, content);
    var last := Message("assistant", ReplyText(complete(sent)));
    AppendTwo(before, Message("user", content), last);
    if StartsWithSystem(threads) {
      assert (sent + [last])[0] == before[0];
    }
  }

  /** Where the two appended elements and the old prefix lie in `b + [u] + [v]`. */
  lemma AppendTwo<T>(b: seq<T>, u: T, v: T)
    ensures var t := b + [u] + [v];
      && |t| == |b| + 2 && t[..|b|] == b && t[..|b| + 1] == b + [u]
      && t[|b|] == u && t[|b| + 1] == v
  {
    var t := b + [u] + [v];
    assert t[..|b| + 1] == b + [u];
  }

  /** The stored user message is the typed one exactly when no tool was chosen; otherwise
      it is the message with the tool's result attached. */
  lemma UserContentSpec(message: string, tool: ToolUse, evaluate: string -> EvalOutcome)
    ensures UserContent(message, tool, evaluate) == message <==> tool.NoTool?
    ensures !tool.NoTool? ==>
      UserContent(message, tool, evaluate) == Enhanced(message, ToolResult(tool, evaluate))
  {
    if !tool.NoTool? {
      var e := Enhanced(message, ToolResult(tool, evaluate));
      assert |e| > |message|;
    }
  }

  /** Overwriting the content of the last message of `before + [m]`. */
  lemma ReplaceLastContent(before: seq<Message>, role: string, content0: string, content1: string)
    ensures var t := before + [Message(role, content0)];
      t[..|t| - 1] + [t[|t| - 1].(content := content1)] == before + [Message(role, content1)]
  {
    var t := before + [Message(role, content0)];
    assert t[..|t| - 1] == before;
  }

  lemma UpdateTwice(threads: ThreadMap, id: string, a: seq<Message>, b: seq<Message>)
    ensures threads[id := a][id := b] == threads[id := b]
  {
  }

  // ---------------------------------------------------------------------------------------
  // The agent

  /** `AgentWithTools`, reduced to its thread store. */
  class AgentWithTools {
    /** `self.threads`. */
    var threads: ThreadMap

    ghost predicate Valid()
      reads this
    {
      StartsWithSystem(threads)
    }

    /** The agent starts with no threads. */
    constructor ()
      ensures Valid() && threads == map[]
    {
      threads := map[];
    }

    /** `create_thread(thread_id)`: (re)sets the thread to the system message alone, under
        the given id or, when none is given, under "thread_<number of threads + 1>". */
    method CreateThread(threadId: Option<string>) returns (id: string)
      requires Valid()
      modifies this
      ensures Valid()
      ensures id == if threadId.Some? then threadId.value else ThreadId(|old(threads)| + 1)
      ensures threads == old(threads)[id := [SystemMessage]]
    {
      id := if threadId.Some? then threadId.value else ThreadId(|threads| + 1);
      threads := threads[id := [SystemMessage]];
    }

    /** `get_thread_messages(thread_id)`: the stored messages, or none for an unknown id. */
    method GetThreadMessages(threadId: string) returns (messages: seq<Message>)
      ensures threadId in threads ==> messages == threads[threadId]
      ensures threadId !in threads ==> messages == []
    {
      messages := if threadId in threads then threads[threadId] else [];
    }

    /** `add_message_to_thread(thread_id, role, content)`. */
    method AddMessageToThread(threadId: string, role: string, content: string)
      requires Valid()
      modifies this
      ensures Valid()
      ensures threads == Appended(old(threads), threadId, Message(role, content))
    {
      if threadId !in threads {
        var _ := CreateThread(Some(threadId));
      }
      threads := threads[threadId := threads[threadId] + [Message(role, content)]];
    }

    /** `self.threads[thread_id][-1]["content"] = content`: overwrites the content of the
        last message of an existing thread. */
    method SetLastContent(threadId: string, content: string)
      requires Valid() && threadId in threads && |threads[threadId]| > 1
      modifies this
      ensures Valid()
      ensures var t := old(threads[threadId]);
        threads == old(threads)[threadId := t[..|t| - 1] + [t[|t| - 1].(content := content)]]
    {
      var t := threads[threadId];
      threads := threads[threadId := t[..|t| - 1] + [t[|t| - 1].(content := content)]];
    }

    /** `run_with_thread(message, thread_id)`, with the tools' `eval` given as `evaluate`
        and the chat completion given as `complete`, applied to the thread as sent. */
    method RunWithThread(message: string, threadId: string,
                         evaluate: string -> EvalOutcome, complete: seq<Message> -> Completion)
      returns (reply: string)
      requires Valid()
      modifies this
      ensures Valid()
      ensures var content := UserContent(message, ToolUseOf(message), evaluate);
        && reply == ReplyText(complete(SentMessages(old(threads), threadId, content)))
        && threads == AfterRun(old(threads), threadId, content, complete)
    {
      ghost var start := threads;
      AddMessageToThread(threadId, "user", message);
      AppendedLast(start, threadId, Message("user", message));
      var tool := DetectToolUsage(message);
      reply := AnswerUserMessage(message, threadId, tool, evaluate, complete);
      ghost var sent := SentMessages(start, threadId, UserContent(message, tool, evaluate));
      UpdateTwice(start, threadId, ThreadOrFresh(start, threadId) + [Message("user", message)],
                  sent + [Message("assistant", reply)]);
    }

    /** The rest of `run_with_thread` once the user message is the thread's last: run the
        chosen tool and attach its result to that message, obtain the completion, and
        append the assistant's reply, or the error text when the completion failed. */
    method AnswerUserMessage(message: string, threadId: string, tool: ToolUse,
                             evaluate: string -> EvalOutcome, complete: seq<Message> -> Completion)
      returns (reply: string)
      requires Valid()
      requires threadId in threads && |threads[threadId]| > 1
      requires threads[threadId][|threads[threadId]| - 1] == Message("user", message)
      modifies this
      ensures Valid()
      ensures var before := old(threads[threadId])[..|old(threads[threadId])| - 1];
        var sent := before + [Message("user", UserContent(message, tool, evaluate))];
        && reply == ReplyText(complete(sent))
        && threads == old(threads)[threadId := sent + [Message("assistant", reply)]]
    {
      ghost var before := threads[threadId][..|threads[threadId]| - 1];
      ghost var sent := before + [Message("user", UserContent(message, tool, evaluate))];
      assert threads[threadId] == before + [Message("user", message)];
      if !tool.NoTool? {
        var enhanced := Enhanced(message, ToolResult(tool, evaluate));
        SetLastContent(threadId, enhanced);
        ReplaceLastContent(before, "user", message, enhanced);
      }
      assert threads == old(threads)[threadId := sent];
      var outcome := complete(threads[threadId]);
      reply := ReplyText(outcome);
      AddMessageToThread(threadId, "assistant", reply);
      UpdateTwice(old(threads), threadId, sent, sent + [Message("assistant", reply)]);
    }
  }
}
