/** The two tools the agent can call: a mock weather table and a guarded calculator. */
module Tools {
  import opened Text

  // ---------------------------------------------------------------------------------------
  // WeatherTool.get_weather

  /** A forecast of the mock table: the sky, and the day's high in degrees Celsius as two
      digits. */
  datatype Forecast = Forecast(sky: string, high: string)

  /** The forecast as the table spells it, "<sky> with a high of <high>°C". */
  function ForecastText(f: Forecast): string {
    f.sky + " with a high of " + f.high + "°C"
  }

  /** The mock forecasts, keyed by exact city name. */
  const WeatherTable: map<string, Forecast> := map[
    "Amsterdam" := Forecast("cloudy", "15"),
    "New York" := Forecast("sunny", "22"),
    "London" := Forecast("rainy", "12"),
    "Tokyo" := Forecast("partly cloudy", "18"),
    "Sydney" := Forecast("sunny", "25")
  ]

  /** The forecast given for every location missing from the table. */
  const DefaultForecast: Forecast := Forecast("partly cloudy", "20")

  const ReportPrefix: string := "The weather in "

  /** `weather_data.get(location, default)`, before it is spelled out. */
  function ForecastFor(location: string): Forecast {
    if location in WeatherTable then WeatherTable[location] else DefaultForecast
  }

  function WeatherFor(location: string): string {
    ForecastText(ForecastFor(location))
  }

  /** `WeatherTool.get_weather(location)`. */
  function GetWeather(location: string): string {
    ReportPrefix + location + " is " + WeatherFor(location) + "."
  }

  /** The six forecasts have six different highs, so the high tells which one a location
      gets; in particular no listed city gets the default forecast. */
  lemma HighIdentifiesForecast(a: string, b: string)
    requires ForecastFor(a).high == ForecastFor(b).high
    ensures ForecastFor(a) == ForecastFor(b)
    ensures ForecastFor(a) == DefaultForecast <==> a !in WeatherTable
  {
  }

  /** A report spells its location right after the prefix. */
  lemma ReportLayout(location: string)
    ensures var r := GetWeather(location);
      && |r| == |ReportPrefix| + |location| + |WeatherFor(location)| + 5
      && r[|ReportPrefix|..|ReportPrefix| + |location|] == location
  {
    var f := ForecastFor(location);
    ConcatLayout(ReportPrefix, location, " is ", f.sky, " with a high of ", f.high, "°C", ".");
  }

  /** The two characters before "°C." in a report are the high of the location's
      forecast. */
  lemma ReportEndsWithHigh(location: string)
    ensures var r := GetWeather(location);
      |r| >= 5 && r[|r| - 5..|r| - 3] == ForecastFor(location).high
  {
    var f := ForecastFor(location);
    assert |f.high| == 2;
    ConcatLayout(ReportPrefix, location, " is ", f.sky, " with a high of ", f.high, "°C", ".");
  }

  /** Where the pieces of `p + x + m + (s + w + h + u) + e` lie. */
  lemma ConcatLayout(p: string, x: string, m: string, s: string, w: string, h: string, u: string, e: string)
    ensures var r := p + x + m + (s + w + h + u) + e;
      && |r| == |p| + |x| + |m| + |s| + |w| + |h| + |u| + |e|
      && r[|p|..|p| + |x|] == x
      && r[|r| - |e| - |u| - |h|..|r| - |e| - |u|] == h
  {
    var r := p + x + m + (s + w + h + u) + e;
    var front := p + x + m + s + w;
    assert r == front + h + (u + e);
    assert r[|front|..|front| + |h|] == h;
  }

  /** The report names its location: two locations never give the same report, so the
      location can be read back from it. */
  lemma GetWeatherReportsLocation(a: string, b: string)
    requires GetWeather(a) == GetWeather(b)
    ensures a == b
  {
    ReportEndsWithHigh(a);
    ReportEndsWithHigh(b);
    HighIdentifiesForecast(a, b);
    ReportLayout(a);
    ReportLayout(b);
  }

  /** A listed city gets its table entry, and the default forecast goes exactly to the
      locations missing from the table. */
  lemma GetWeatherForecast(location: string)
    ensures location in WeatherTable ==> WeatherFor(location) == ForecastText(WeatherTable[location])
    ensures WeatherFor(location) == ForecastText(DefaultForecast) <==> location !in WeatherTable
  {
    var f := ForecastFor(location);
    ForecastTextEndsWithHigh(f);
    ForecastTextEndsWithHigh(DefaultForecast);
    if location in WeatherTable {
      HighIdentifiesForecast(location, location);
    }
  }

  /** The two digits before "°C" in a forecast are its high. */
  lemma ForecastTextEndsWithHigh(f: Forecast)
    requires |f.high| == 2
    ensures var t := ForecastText(f); |t| >= 4 && t[|t| - 4..|t| - 2] == f.high
  {
    var front := f.sky + " with a high of ";
    var t := ForecastText(f);
    assert t == front + f.high + "°C";
    assert t[|front|..|front| + 2] == f.high;
  }

  // ---------------------------------------------------------------------------------------
  // CalculatorTool.calculate

  /** The only characters an expression may contain; space is the only whitespace allowed. */
  const AllowedChars: set<char> :=
    {'0', '1', '2', '3', '4', '5', '6', '7', '8', '9', '+', '-', '*', '/', '(', ')', '.', ',', ' '}

  const InvalidCharactersMessage: string := "Error: Invalid characters in expression"

  /** `all(c in allowed_chars for c in expression)`. */
  predicate IsAllowedExpression(expression: string) {
    forall k :: 0 <= k < |expression| ==> expression[k] in AllowedChars
  }

  /** What Python's `eval` did with the expression: `str` of its value, or `str` of the
      exception it raised. Evaluation itself is outside this model. */
  datatype EvalOutcome = Evaluated(text: string) | Raised(error: string)

  /** `CalculatorTool.calculate(expression)`, with `eval` given as `evaluate`. */
  function Calculate(expression: string, evaluate: string -> EvalOutcome): (r: string)
    ensures r == InvalidCharactersMessage <==> !IsAllowedExpression(expression)
    ensures IsAllowedExpression(expression) && evaluate(expression).Evaluated? ==>
      r == "The result of " + expression + " is " + evaluate(expression).text
    ensures IsAllowedExpression(expression) && evaluate(expression).Raised? ==>
      r == "Error calculating " + expression + ": " + evaluate(expression).error
  {
    if !IsAllowedExpression(expression) then InvalidCharactersMessage
    else
      match evaluate(expression)
      case Evaluated(text) =>
        var r := "The result of " + expression + " is " + text;
        assert r[0] != InvalidCharactersMessage[0];
        r
      case Raised(error) =>
        var r := "Error calculating " + expression + ": " + error;
        assert r[5] != InvalidCharactersMessage[5];
        r
  }

  /** A rejected expression is never evaluated: the answer does not depend on `evaluate`. */
  lemma CalculateRejectsWithoutEvaluating(expression: string, e1: string -> EvalOutcome, e2: string -> EvalOutcome)
    requires !IsAllowedExpression(expression)
    ensures Calculate(expression, e1) == Calculate(expression, e2) == InvalidCharactersMessage
  {
  }
}
