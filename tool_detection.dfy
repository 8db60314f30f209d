/**
  `AgentWithTools.detect_tool_usage`: the keyword heuristic that decides whether a user
  message asks for the weather tool, for the calculator tool, or for neither, and extracts
  the argument to pass.
 */
module ToolDetection {
  import opened Wrappers
  import opened Text
  import opened Tools

  /** Any of these in the lower-cased message suggests a weather question. */
  const WeatherKeywords: seq<string> := ["weather", "temperature", "rain", "sunny", "cloudy"]

  /** Any of these in the lower-cased message suggests a calculation. */
  const CalcKeywords: seq<string> := ["calculate", "compute", "math", "+", "-", "*", "/", "="]

  /** The words after which a location is expected. */
  const Prepositions: seq<string> := ["in", "for", "at"]

  /** The characters stripped from both ends of the word taken as the location. */
  const Punctuation: set<char> := {'.', ',', '!', '?'}

  // The character class of the pattern `[\d\+\-\*/\(\)\.\s]+`: digits, the four
  // operators, parentheses, the dot and whitespace.
  const MathChars: set<char> :=
    {'0', '1', '2', '3', '4', '5', '6', '7', '8', '9', '+', '-', '*', '/', '(', ')', '.'} + Whitespace

  /** The decision: the pair `(tool_name, tool_param)`, with `(None, None)` as `NoTool`. */
  datatype ToolUse = NoTool | UseWeather(location: string) | UseCalculator(expression: string)

  /** `word.lower() in ["in", "for", "at"]`. */
  predicate IsPreposition(word: string) {
    Lower(word) in Prepositions
  }

  /** The location the word scan returns: the word after the first preposition that is not
      the last word, with punctuation stripped; `None` when the scan runs out. */
  function FirstLocation(words: seq<string>): Option<string>
    decreases |words|
  {
    if |words| < 2 then None
    else if IsPreposition(words[0]) then Some(Strip(words[1], Punctuation))
    else FirstLocation(words[1..])
  }

  /** `words[i]` is the first preposition that has a word after it. */
  ghost predicate IsFirstPreposition(words: seq<string>, i: int) {
    && 0 <= i < |words| - 1
    && IsPreposition(words[i])
    && forall k :: 0 <= k < i ==> !IsPreposition(words[k])
  }

  /** The word scan finds a location exactly when some preposition has a word after it,
      and then it is the word after the first such preposition. */
  lemma {:induction false} FirstLocationSpec(words: seq<string>)
    ensures FirstLocation(words).None? <==> forall i :: 0 <= i < |words| - 1 ==> !IsPreposition(words[i])
    ensures forall i :: IsFirstPreposition(words, i) ==>
      FirstLocation(words) == Some(Strip(words[i + 1], Punctuation))
    ensures FirstLocation(words).Some? ==> exists i :: IsFirstPreposition(words, i)
    decreases |words|
  {
    if |words| >= 2 && !IsPreposition(words[0]) {
      var rest := words[1..];
      FirstLocationSpec(rest);
      forall i | IsFirstPreposition(words, i)
        ensures FirstLocation(words) == Some(Strip(words[i + 1], Punctuation))
      {
        assert i > 0;
        assert IsPreposition(rest[i - 1]);
        assert IsFirstPreposition(rest, i - 1);
      }
      if FirstLocation(words).None? {
        forall i | 0 <= i < |words| - 1 ensures !IsPreposition(words[i]) {
          if i > 0 {
            assert words[i] == rest[i - 1];
          }
        }
      } else {
        var i :| IsFirstPreposition(rest, i);
        assert words[i + 1] == rest[i];
        assert IsFirstPreposition(words, i + 1);
      }
    } else if |words| >= 2 {
      forall i | IsFirstPreposition(words, i)
        ensures FirstLocation(words) == Some(Strip(words[i + 1], Punctuation))
      {
        assert i == 0;
      }
      assert IsFirstPreposition(words, 0);
    }
  }

  /** The argument for the calculator: the first longest match of the pattern, stripped of
      surrounding whitespace; `None` when the pattern does not match at all. */
  function LongestMathRun(message: string): Option<string> {
    var matches := Runs(message, Among(MathChars));
    if matches == [] then None else Some(Strip(matches[LongestIndex(matches)], Whitespace))
  }

  /** The calculator branch, which the weather branch falls through to. */
  function CalculatorCheck(message: string): ToolUse {
    if ContainsAny(Lower(message), CalcKeywords) && LongestMathRun(message).Some?
    then UseCalculator(LongestMathRun(message).value)
    else NoTool
  }

  /** The whole decision, in the order the source takes it. */
  function ToolUseOf(message: string): ToolUse {
    var location :=
      if ContainsAny(Lower(message), WeatherKeywords) then FirstLocation(Words(message)) else None;
    if location.Some? then UseWeather(location.value) else CalculatorCheck(message)
  }

  /** `detect_tool_usage(message)`: the keyword tests, then the scan over the words for a
      preposition with a word after it, then the calculator branch. */
  method DetectToolUsage(message: string) returns (t: ToolUse)
    ensures t == ToolUseOf(message)
  {
    var lower := Lower(message);
    if ContainsAny(lower, WeatherKeywords) {
      var words := Words(message);
      var i := 0;
      while i < |words|
        invariant 0 <= i <= |words|
        invariant FirstLocation(words) == FirstLocation(words[i..])
      {
        if IsPreposition(words[i]) && i + 1 < |words| {
          return UseWeather(Strip(words[i + 1], Punctuation));
        }
        assert words[i..][1..] == words[i + 1..];
        i := i + 1;
      }
    }
    t := CalculatorCheck(message);
  }

  // ---------------------------------------------------------------------------------------
  // The order of the decisions

  /** A weather keyword and a preposition with a word after it select the weather tool,
      with the word after the first such preposition, stripped of punctuation. */
  lemma WeatherWins(message: string, i: int)
    requires ContainsAny(Lower(message), WeatherKeywords)
    requires IsFirstPreposition(Words(message), i)
    ensures ToolUseOf(message) == UseWeather(Strip(Words(message)[i + 1], Punctuation))
  {
    FirstLocationSpec(Words(message));
  }

  /** A weather keyword with no usable preposition falls through to the calculator check. */
  lemma WeatherFallsThrough(message: string)
    requires forall i :: 0 <= i < |Words(message)| - 1 ==> !IsPreposition(Words(message)[i])
    ensures ToolUseOf(message) == CalculatorCheck(message)
  {
    FirstLocationSpec(Words(message));
  }

  /** No tool is chosen exactly when the weather branch yields nothing and the calculator
      branch finds no keyword or no character of the pattern. */
  lemma NoToolIff(message: string)
    ensures ToolUseOf(message) == NoTool <==>
      && (!ContainsAny(Lower(message), WeatherKeywords)
          || forall i :: 0 <= i < |Words(message)| - 1 ==> !IsPreposition(Words(message)[i]))
      && (!ContainsAny(Lower(message), CalcKeywords)
          || forall k :: 0 <= k < |message| ==> message[k] !in MathChars)
  {
    FirstLocationSpec(Words(message));
    RunsEmptyIff(message, Among(MathChars));
  }

  // ---------------------------------------------------------------------------------------
  // What the extracted arguments look like

  /** A word stripped of punctuation is still free of whitespace, and neither starts nor
      ends with punctuation. */
  lemma StrippedWord(word: string)
    requires forall k :: 0 <= k < |word| ==> word[k] !in Whitespace
    ensures var loc := Strip(word, Punctuation);
      && (forall k :: 0 <= k < |loc| ==> loc[k] !in Whitespace)
      && (loc == [] || (loc[0] !in Punctuation && loc[|loc| - 1] !in Punctuation))
  {
    var loc := Strip(word, Punctuation);
    StripIsTrimmedSlice(word, Punctuation);
    forall k | 0 <= k < |loc| ensures loc[k] !in Whitespace {
      StripChars(word, Punctuation, k);
    }
  }

  /** A detected location is one word: it holds no whitespace, and it neither starts nor
      ends with punctuation. */
  lemma DetectedLocationIsOneWord(message: string)
    requires ToolUseOf(message).UseWeather?
    ensures var loc := ToolUseOf(message).location;
      && (forall k :: 0 <= k < |loc| ==> loc[k] !in Whitespace)
      && (loc == [] || (loc[0] !in Punctuation && loc[|loc| - 1] !in Punctuation))
  {
    WordsHaveNoWhitespace(message);
    FirstLocationIsOneWord(Words(message));
  }

  /** The words of `split()` hold no whitespace. */
  lemma WordsHaveNoWhitespace(message: string)
    ensures var words := Words(message);
      forall m, k :: 0 <= m < |words| && 0 <= k < |words[m]| ==> words[m][k] !in Whitespace
  {
    var words := Words(message);
    forall m, k | 0 <= m < |words| && 0 <= k < |words[m]| ensures words[m][k] !in Whitespace {
      assert NotAmong(Whitespace).Has(words[m][k]);
    }
  }

  /** The location the scan finds in whitespace-free words is itself one such word,
      stripped of punctuation. */
  lemma FirstLocationIsOneWord(words: seq<string>)
    requires forall m, k :: 0 <= m < |words| && 0 <= k < |words[m]| ==> words[m][k] !in Whitespace
    ensures FirstLocation(words).Some? ==>
      var loc := FirstLocation(words).value;
      && (forall k :: 0 <= k < |loc| ==> loc[k] !in Whitespace)
      && (loc == [] || (loc[0] !in Punctuation && loc[|loc| - 1] !in Punctuation))
  {
    FirstLocationSpec(words);
    if FirstLocation(words).Some? {
      var i :| IsFirstPreposition(words, i);
      StrippedWord(words[i + 1]);
    }
  }

  /** Consequently the table entry "New York" can never be looked up through detection. */
  lemma NewYorkIsNeverDetected(message: string)
    ensures ToolUseOf(message) != UseWeather("New York")
  {
    if ToolUseOf(message).UseWeather? {
      DetectedLocationIsOneWord(message);
      var loc := ToolUseOf(message).location;
      assert |loc| > 3 ==> loc[3] !in Whitespace;
    }
  }

  /** A detected expression is made of characters of the pattern and carries no whitespace
      at either end. */
  lemma DetectedExpressionShape(message: string)
    requires ToolUseOf(message).UseCalculator?
    ensures var e := ToolUseOf(message).expression;
      && (forall k :: 0 <= k < |e| ==> e[k] in MathChars)
      && (e == [] || (e[0] !in Whitespace && e[|e| - 1] !in Whitespace))
  {
    LongestMathRunShape(message);
  }

  /** The stripped longest match is made of characters of the pattern and carries no
      whitespace at either end. */
  lemma LongestMathRunShape(message: string)
    ensures LongestMathRun(message).Some? ==>
      var e := LongestMathRun(message).value;
      && (forall k :: 0 <= k < |e| ==> e[k] in MathChars)
      && (e == [] || (e[0] !in Whitespace && e[|e| - 1] !in Whitespace))
  {
    var matches := Runs(message, Among(MathChars));
    if matches != [] {
      var run := matches[LongestIndex(matches)];
      var e := Strip(run, Whitespace);
      assert LongestMathRun(message) == Some(e);
      StripIsTrimmedSlice(run, Whitespace);
      var i :| TrimmedAt(run, Whitespace, e, i);
      forall k | 0 <= k < |e| ensures e[k] in MathChars {
        assert e[k] == run[i + k];
        assert Among(MathChars).Has(run[i + k]);
      }
    }
  }

  /** The calculator's guard accepts a detected expression exactly when the expression
      holds no whitespace other than the space: the pattern admits every whitespace
      character, the guard only the space. */
  lemma DetectedExpressionPassesGuardIff(message: string)
    requires ToolUseOf(message).UseCalculator?
    ensures var e := ToolUseOf(message).expression;
      IsAllowedExpression(e) <==> forall k :: 0 <= k < |e| ==> e[k] == ' ' || e[k] !in Whitespace
  {
    DetectedExpressionShape(message);
    var e := ToolUseOf(message).expression;
    forall k | 0 <= k < |e| ensures e[k] in AllowedChars <==> (e[k] == ' ' || e[k] !in Whitespace) {
      MathCharAllowed(e[k]);
    }
  }

  /** Of the characters of the pattern, the guard refuses exactly the whitespace other
      than the space. */
  lemma MathCharAllowed(c: char)
    requires c in MathChars
    ensures c in AllowedChars <==> (c == ' ' || c !in Whitespace)
  {
  }
}
