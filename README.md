# Agent with tools and threads, and the demo calculator, in Dafny

This project models the parts of the tutorial repository that hold logic of their own.

- **The conversation-thread store of `AgentWithTools`.** It is a dictionary from thread id to an ordered list of role/content messages. Every thread starts with the system prompt. A missing thread is created on first append. Ids like `thread_<n>` are generated when no id is given.
- **`run_with_thread`'s bookkeeping on that store.** The user message is appended. When a tool was chosen, its content is replaced by the message with the tool result attached. The assistant's reply, or the error text, is appended after it.
- **The keyword heuristic `detect_tool_usage`.** It chooses the weather tool, the calculator or nothing, and extracts the argument to pass.
- **The two tools.** The mock weather table is modelled, and for the calculator only its guard on allowed characters (evaluation is a parameter).
- **The integer calculator of the MCP demo script,** and the loop that collects one result per calculation, with `None` for a raised error.

Modules, one per concern:

- `Wrappers` (`wrappers.dfy`): `Option` and `Result`, which stand for Python's `None` and raised exceptions.
- `Text` (`text.dfy`): the Python string builtins the heuristic uses, on ASCII text. These are `lower`, substring `in`, `strip`, `split()`, and `re.findall` with one character class. The last two share one definition: the maximal runs of a character class. `max(..., key=len)` and `str(n)` are here too.
- `Tools` (`tools.dfy`): `WeatherTool.get_weather` and `CalculatorTool.calculate`. Each forecast of the weather table is held as its sky and its two-digit high, and `ForecastText` spells it out. The spelled text is character for character the table's string, for example `Forecast("cloudy", "15")` is "cloudy with a high of 15°C".
- `ToolDetection` (`tool_detection.dfy`): `detect_tool_usage`. The spec function is `ToolUseOf`. The method `DetectToolUsage` holds the word-scanning loop and is proved equal to `ToolUseOf`.
- `Threads` (`threads.dfy`): the class `AgentWithTools` with its `threads: map<string, seq<Message>>` field and methods that update it in place. Each method's new state is tied to a function on maps (`Appended`, `AfterRun`), and the lemmas state what those functions guarantee.
- `SimpleDemo` (`simple_demo.dfy`): `add`, `subtract`, `multiply`, `divide` and `simple_calculator_demo`.

Two outside calls are parameters. The chat completion is `complete: seq<Message> -> Completion`; it is applied to the thread exactly as sent and gives a reply text or an error message. Python's `eval` is `evaluate: string -> EvalOutcome`.

Two behaviours of the code that are easy to miss are proved:

- A detected location is always a single word. So the table entry "New York" can never be reached through detection (`NewYorkIsNeverDetected`).
- The generated id `thread_<len+1>` is not checked against the existing ids. It can be an id already created by name, and `create_thread` then replaces that thread (`GeneratedIdMayBeTaken`).

Two facts about the code that its comments do not say:

- The comment at agent-tools-threads.py:53 says only numbers, operators and parentheses are allowed. The set on line 54 also allows `.`, `,` and the space, and the space is the only whitespace it allows.
- `create_thread` on an existing id discards that thread's messages (line 92). The thread then holds the system prompt alone.

## Model

| member | source | states |
|---|---|---|
| `Tools.ForecastText` | 08-tracing/agent-tools-threads.py:35-39 | a forecast spelled as the table's strings are, `<sky> with a high of <high>°C`; `ReportEndsWithHigh` and `HighIdentifiesForecast` state what it keeps |
| `Tools.ForecastFor` | 08-tracing/agent-tools-threads.py:34-42 | the table's forecast for a listed city, and the default partly cloudy, 20 for every other location; `GetWeatherForecast` states it |
| `Tools.WeatherFor` | 08-tracing/agent-tools-threads.py:42 | `weather_data.get(location, default)`: the spelled forecast `ForecastFor` gives |
| `Tools.GetWeather` | 08-tracing/agent-tools-threads.py:42-43 | the report `The weather in <location> is <forecast>.`; `ReportLayout` and `GetWeatherReportsLocation` state its shape and that it determines the location |
| `Tools.GetWeatherForecast` | 08-tracing/agent-tools-threads.py:34-42 | a listed city gets its table entry, and the default "partly cloudy with a high of 20°C" goes exactly to the locations missing from the table |
| `Tools.HighIdentifiesForecast` | 08-tracing/agent-tools-threads.py:34-42 | the six forecasts (five cities and the default) have six different highs, so the high tells the forecast, and only unlisted locations get the default |
| `Tools.ReportLayout` | 08-tracing/agent-tools-threads.py:43 | the report is as long as prefix, location, " is ", forecast and "." together, and spells the location right after "The weather in " |
| `Tools.ReportEndsWithHigh` | 08-tracing/agent-tools-threads.py:43 | the two characters before the closing "°C." of a report are the high of the location's forecast |
| `Tools.GetWeatherReportsLocation` | 08-tracing/agent-tools-threads.py:42-43 | two locations never give the same report, so the location can be recovered from the report |
| `Tools.Calculate` | 08-tracing/agent-tools-threads.py:50-61 | the answer is "Error: Invalid characters in expression" exactly when a character is outside `0123456789+-*/()., `; otherwise it reports the evaluated value or the raised error |
| `Tools.CalculateRejectsWithoutEvaluating` | 08-tracing/agent-tools-threads.py:54-56 | a rejected expression is never evaluated: the answer is the same whatever `eval` would do |
| `ToolDetection.ToolUseOf` | 08-tracing/agent-tools-threads.py:126-149 | the decision in the code's order: the weather branch when a weather keyword occurs and the scan finds a location, else the calculator branch; `WeatherWins`, `WeatherFallsThrough` and `NoToolIff` state it |
| `ToolDetection.IsPreposition` | 08-tracing/agent-tools-threads.py:134 | a word whose lower-cased form is in, for or at |
| `ToolDetection.FirstLocation` | 08-tracing/agent-tools-threads.py:132-136 | the word after the first preposition that is not the last word, stripped of `.,!?`, or nothing; `FirstLocationSpec` characterises it |
| `ToolDetection.LongestMathRun` | 08-tracing/agent-tools-threads.py:143-146 | the first longest match of `[\d+\-*/().\s]+`, stripped of whitespace, or nothing when there is no match; `LongestMathRunShape` states its shape |
| `ToolDetection.CalculatorCheck` | 08-tracing/agent-tools-threads.py:139-149 | the calculator with the longest match when a calculator keyword occurs and the pattern matches, and no tool otherwise |
| `ToolDetection.DetectToolUsage` | 08-tracing/agent-tools-threads.py:124-149 | the method, with its word-scanning loop, returns exactly the decision `ToolUseOf` describes |
| `ToolDetection.FirstLocationSpec` | 08-tracing/agent-tools-threads.py:132-136 | the scan finds a location exactly when some word equal to in/for/at (ignoring case) has a word after it; the location is the word after the first such one, with `.,!?` stripped from both ends |
| `ToolDetection.WeatherWins` | 08-tracing/agent-tools-threads.py:128-136 | a weather keyword in the lower-cased message plus a usable preposition selects `get_weather` with that word, before any calculator test |
| `ToolDetection.WeatherFallsThrough` | 08-tracing/agent-tools-threads.py:130-140 | with no usable preposition the decision is the calculator check's, whether or not a weather keyword occurred |
| `ToolDetection.NoToolIff` | 08-tracing/agent-tools-threads.py:124-149 | `(None, None)` is returned exactly when the weather branch yields nothing and either no calculator keyword occurs or no character of the pattern does |
| `ToolDetection.DetectedLocationIsOneWord` | 08-tracing/agent-tools-threads.py:132-135 | a detected location contains no whitespace and neither starts nor ends with `.,!?` |
| `ToolDetection.FirstLocationIsOneWord` | 08-tracing/agent-tools-threads.py:133-135 | over words free of whitespace, the scan's location is whitespace-free and trimmed of `.,!?` |
| `ToolDetection.WordsHaveNoWhitespace` | 08-tracing/agent-tools-threads.py:132 | no word of `split()` contains whitespace |
| `ToolDetection.NewYorkIsNeverDetected` | 08-tracing/agent-tools-threads.py:132-136 | detection never yields the two-word table key "New York" |
| `ToolDetection.DetectedExpressionShape` | 08-tracing/agent-tools-threads.py:142-147 | a detected expression is made only of characters of `[\d+\-*/().\s]` and has no whitespace at either end |
| `ToolDetection.LongestMathRunShape` | 08-tracing/agent-tools-threads.py:144-146 | the stripped longest match is made of characters of the pattern and has no whitespace at either end |
| `ToolDetection.DetectedExpressionPassesGuardIff` | 08-tracing/agent-tools-threads.py:143-147 | the calculator guard accepts a detected expression exactly when it holds no whitespace other than the space |
| `ToolDetection.MathCharAllowed` | 08-tracing/agent-tools-threads.py:54-55 | of the pattern's characters, the guard refuses exactly the whitespace other than the space |
| `Text.Lower` | 08-tracing/agent-tools-threads.py:126 | a string of the same length with each character lowered, exactly the ASCII capitals being changed |
| `Text.Contains` | 08-tracing/agent-tools-threads.py:130 | substring `in`: the keyword occurs at some position of the string |
| `Text.ContainsAny` | 08-tracing/agent-tools-threads.py:130 | `any(keyword in s for keyword in keys)`: some keyword of the list occurs in the string |
| `Text.StripLeft` | 08-tracing/agent-tools-threads.py:135 | `lstrip(chars)`, never longer than its input; `StripLeftSpec` pins it down |
| `Text.StripRight` | 08-tracing/agent-tools-threads.py:146 | `rstrip(chars)`, never longer than its input; `StripRightSpec` pins it down |
| `Text.Strip` | 08-tracing/agent-tools-threads.py:135 | `strip(chars)` as `lstrip` then `rstrip`; `StripIsTrimmedSlice` states what it cuts |
| `Text.SpanLength` | 08-tracing/agent-tools-threads.py:144 | the length of the longest prefix made of characters of the class: every character before it is in the class, and the next, if any, is not |
| `Text.Words` | 08-tracing/agent-tools-threads.py:132 | `split()`: the maximal runs of non-whitespace; `RunsAreMaximal`, `MaximalRunsAreRuns` and `RunsCoverClass` state it |
| `Text.NatToString` | 08-tracing/agent-tools-threads.py:90 | `str(n)`: a non-empty string of digits with no leading zero; `ParseNatToString` reads it back |
| `Text.LongestIndex` | 08-tracing/agent-tools-threads.py:146 | `max(matches, key=len)` picks a longest match, and the first of the longest ones |
| `Text.Runs` | 08-tracing/agent-tools-threads.py:144 | every match of `re.findall` with a one-class pattern is non-empty and made of characters of the class |
| `Text.RunsAreMaximal` | 08-tracing/agent-tools-threads.py:144 | every returned match is a maximal run of the class in the message |
| `Text.MaximalRunsAreRuns` | 08-tracing/agent-tools-threads.py:144 | every maximal run of the class in the message is returned |
| `Text.RunsCoverClass` | 08-tracing/agent-tools-threads.py:132 | joined, the words of `split()` (or the matches) are exactly the message's characters of the class, in order |
| `Text.RunsEmptyIff` | 08-tracing/agent-tools-threads.py:144-145 | there is no match exactly when no character of the message is in the class |
| `Text.StripLeftSpec` | 08-tracing/agent-tools-threads.py:135 | `lstrip(chars)` removes exactly the leading characters of `chars`: the result is a suffix that does not start with one |
| `Text.StripRightSpec` | 08-tracing/agent-tools-threads.py:146 | `rstrip(chars)` removes exactly the trailing characters of `chars`: the result is a prefix that does not end with one |
| `Text.StripIsTrimmedSlice` | 08-tracing/agent-tools-threads.py:135 | `strip(chars)` cuts only characters of `chars` from the two ends and leaves a slice that neither starts nor ends with one |
| `Text.ParseNatToString` | 08-tracing/agent-tools-threads.py:90 | the decimal notation `str(n)` used in generated ids reads back as `n` |
| `Threads.ThreadId` | 08-tracing/agent-tools-threads.py:90 | the generated id `thread_<n>`; `ThreadIdInjective` and `GeneratedIdMayBeTaken` state what it does and does not guarantee |
| `Threads.ThreadIdInjective` | 08-tracing/agent-tools-threads.py:89-90 | `thread_<a>` and `thread_<b>` are equal only when a = b |
| `Threads.GeneratedIdMayBeTaken` | 08-tracing/agent-tools-threads.py:89-92 | after a thread named "thread_2" is created in an empty store, the next generated id is "thread_2" again |
| `Threads.ThreadOrFresh` | 08-tracing/agent-tools-threads.py:116-117 | the stored thread, or the system message alone when the id is unknown, as `create_thread` would make it |
| `Threads.Appended` | 08-tracing/agent-tools-threads.py:114-122 | the store after `add_message_to_thread`: the message added at the end of the stored or fresh thread; `AppendedSpec` and `AppendedLast` state it |
| `Threads.AppendedSpec` | 08-tracing/agent-tools-threads.py:114-122 | appending adds exactly one message at the end of the target thread, or creates `[system, message]` for a missing id; other threads are untouched and every thread still starts with the system message |
| `Threads.AppendedLast` | 08-tracing/agent-tools-threads.py:114-122 | after an append to a store whose threads start with the system message, the thread has at least two messages, ending with the new one after the old thread |
| `Threads.ToolResult` | 08-tracing/agent-tools-threads.py:175 | the chosen tool applied to its parameter: `get_weather(location)` or `calculate(expression)` |
| `Threads.Enhanced` | 08-tracing/agent-tools-threads.py:182 | the message, then the tool result, then the request for a helpful response, separated by blank lines |
| `Threads.UserContent` | 08-tracing/agent-tools-threads.py:169-183 | the user message's final content: the message itself without a tool, the enhanced message with one; `UserContentSpec` states it |
| `Threads.ReplyText` | 08-tracing/agent-tools-threads.py:196-211 | the completion's text, or `Error processing message: ` and the error when the call raised |
| `Threads.SentMessages` | 08-tracing/agent-tools-threads.py:189-191 | the thread passed to the chat completion: the old or fresh thread, then the user message with its final content |
| `Threads.AfterRun` | 08-tracing/agent-tools-threads.py:162-211 | the store after a run: the sent thread followed by the assistant's reply to it; `AfterRunSpec` states it |
| `Threads.AfterRunSpec` | 08-tracing/agent-tools-threads.py:162-211 | a run, on the success path and the error path alike, grows the thread by exactly two messages: the user message with its final content, then the assistant message; the prefix and the other threads are unchanged, the assistant message is the reply to the thread as sent, and the invariant is kept |
| `Threads.UserContentSpec` | 08-tracing/agent-tools-threads.py:169-183 | the stored user message is the typed one exactly when no tool was chosen; otherwise it is the message with the tool's result attached |
| `Threads.AgentWithTools.constructor` | 08-tracing/agent-tools-threads.py:81-82 | the agent starts with no threads |
| `Threads.AgentWithTools.CreateThread` | 08-tracing/agent-tools-threads.py:87-108 | the thread is set to the system message alone, discarding any earlier messages; the id is the given one or `thread_<number of threads + 1>`, computed before insertion, and it is returned; other threads are unchanged |
| `Threads.AgentWithTools.GetThreadMessages` | 08-tracing/agent-tools-threads.py:110-112 | the stored list for a known id, `[]` for an unknown one; the store is not modified |
| `Threads.AgentWithTools.AddMessageToThread` | 08-tracing/agent-tools-threads.py:114-122 | the new store is `Appended(old store, id, {role, content})`, and every thread still starts with the system message |
| `Threads.AgentWithTools.SetLastContent` | 08-tracing/agent-tools-threads.py:183 | only the content of the thread's last message is replaced |
| `Threads.AgentWithTools.RunWithThread` | 08-tracing/agent-tools-threads.py:151-211 | the reply is the completion's text, or "Error processing message: " plus the error, for the thread as sent; the new store is `AfterRun` with the user content that the detected tool gives |
| `Threads.AgentWithTools.AnswerUserMessage` | 08-tracing/agent-tools-threads.py:169-211 | once the user message is last, the tool result is attached to it, the completion sees that thread, and the reply is appended |
| `SimpleDemo.Add` | 09-mcp/simple_demo.py:12-15 | the sum undoes subtraction of either argument |
| `SimpleDemo.Subtract` | 09-mcp/simple_demo.py:17-20 | adding `b` back gives `a` |
| `SimpleDemo.Multiply` | 09-mcp/simple_demo.py:22-25 | the product is zero exactly when a factor is zero |
| `SimpleDemo.Divide` | 09-mcp/simple_demo.py:27-32 | fails with "Cannot divide by zero!" exactly when `b == 0`; otherwise the quotient times `b` is `a` |
| `SimpleDemo.SubtractUndoesAdd` | 09-mcp/simple_demo.py:12-20 | `subtract(add(a, b), b) == a` |
| `SimpleDemo.DivideUndoesMultiply` | 09-mcp/simple_demo.py:22-32 | `divide(multiply(a, b), b)` is `a` for every non-zero `b` |
| `SimpleDemo.Apply` | 09-mcp/simple_demo.py:48-50 | a calculation raises exactly when it is a division by zero |
| `SimpleDemo.RunCalculations` | 09-mcp/simple_demo.py:47-55 | exactly one entry per calculation, in order: the function's result, or `None` exactly for a division by zero |
| `SimpleDemo.Entry` | 09-mcp/simple_demo.py:49-55 | the entry the loop appends: the function's result, or `None` when it raised |
| `SimpleDemo.SimpleCalculatorDemo` | 09-mcp/simple_demo.py:34-59 | the demo returns `[300, 250, 60, 4.0]` |

## Left out

- Python's `eval` in `CalculatorTool.calculate` (agent-tools-threads.py:58) is not modelled. It is the parameter `evaluate`, and its outcome is opaque text.
- The Azure OpenAI client and the chat completion call are not modelled. The completion is the parameter `complete`. The call's other arguments (model, `max_tokens`, `temperature`) are left out too.
- OpenTelemetry spans and their attributes, `setup_observability` and the tracer are left out. They are external SDK calls with no effect on the threads or the result.
- `print` output is left out everywhere, including the "Created thread" line of `create_thread`.
- `demo_agent_with_tools`, `interactive_demo`, the `__main__` environment check and the `main` of the demo script are left out. They are console I/O, `input()` and `asyncio.sleep`.
- The files `08-tracing/Observability.py`, `08-tracing/azure_example.py`, `09-mcp/client.py`, `09-mcp/fixed_client.py` and `09-mcp/test_server.py` are not part of this model. They are SDK setup, MCP wrappers and subprocess I/O.
- `async` and concurrency are left out. `run_with_thread` has no awaits inside the modelled part.
- `Text.Lower`: only ASCII capitals are lowered. `str.lower` also lowers non-ASCII letters.
- `Text.Words`: splits on ASCII whitespace only. Python's `split()` also splits on non-ASCII whitespace. `strip()` and `\s` are modelled on the same ASCII set, and `\d` on ASCII digits only.
- `SimpleDemo.Divide`: returns the exact rational quotient as a `real`. Python's float rounding is not modelled. Nor is the `OverflowError` that `a / b` raises on ints when the quotient is too large for a float (for example `divide(10**400, 1)`): the model's `Divide` succeeds for every non-zero `b`.
- `SimpleDemo.Apply` and `SimpleDemo.RunCalculations`: "fails exactly on a division by zero" holds of the exact quotient only. In Python a division whose quotient overflows a float also raises, and the loop at simple_demo.py:49-55 then stores `None` for it; the model stores the quotient.
- `Threads.AgentWithTools.GetThreadMessages`: returns the list as a value. In Python the caller gets the stored list object itself, and changing it would change the store. That aliasing is not modelled.
- `Threads.AgentWithTools.RunWithThread`: the completion is the only step that can fail. This matches the code: the tools catch their own exceptions and detection cannot raise. Exceptions that are not `Exception`s are not modelled.
- The `self.tools` dictionary (agent-tools-threads.py:76-79) is modelled by the case split in `ToolResult`. Since detection only yields tool names that are keys of it, the test `tool_name in self.tools` always holds.
