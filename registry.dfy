/** The static registry of main.py: the four tools registered with
    `@mcp.tool` and the four prompt templates registered with `@mcp.prompt`.
    Registration happens once, when the module is loaded, so the registry is a
    set of constants and lookups are plain map reads. */
module Registry {
  import opened Wrappers

  const SendEmailTool := "mcp-send-email"
  const CalculatorTool := "mcp-calculator"
  const JsonAnalyzerTool := "mcp-json-analyzer"
  const WeatherTool := "mcp-get-weather"

  /** The tool names, in registration order. */
  const ToolNames: seq<string> := [SendEmailTool, CalculatorTool, JsonAnalyzerTool, WeatherTool]

  /** Tool name to its description, as given to the decorator. */
  const ToolDescriptions: map<string, string> := map[
    SendEmailTool := "Send an email with a subject and HTML body to recipients.",
    CalculatorTool := "Evaluate a basic arithmetic expression with +, -, *, /, and parentheses.",
    JsonAnalyzerTool := "Analyze JSON numeric data: sum, mean, median, min, max.",
    WeatherTool := "Fetch weather forecast from latitude and longitude using NWS API."
  ]

  const CalculatorPrompt := "mcp-prompt-calculator"
  const JsonAnalyzerPrompt := "mcp-prompt-json-analyzer"
  const WeatherPrompt := "mcp-prompt-weather"
  const SendEmailPrompt := "mcp-prompt-send-email"

  /** The prompt names, in registration order. */
  const PromptNames: seq<string> := [CalculatorPrompt, JsonAnalyzerPrompt, WeatherPrompt, SendEmailPrompt]

  /** Prompt name to its description, as given to the decorator. */
  const PromptDescriptions: map<string, string> := map[
    CalculatorPrompt := "Prompt template for calculator use case.",
    JsonAnalyzerPrompt := "Prompt template for JSON analysis use case.",
    WeatherPrompt := "Prompt template for weather lookup use case.",
    SendEmailPrompt := "Prompt template for email dispatch use case."
  ]

  // Each prompt body reads "<intro><tool name><rest>"; the text is the
  // source's, split around the tool name it mentions.
  const CalculatorIntro := "You are a calculator assistant. Use the "
  const JsonAnalyzerIntro := "You are a data analyst. Use the "
  const WeatherIntro := "You are a weather assistant. Use the "
  const SendEmailIntro := "You are an automated mail agent. Use the "

  const CalculatorPromptBody := CalculatorIntro + CalculatorTool + " tool to evaluate expressions."
  const JsonAnalyzerPromptBody := JsonAnalyzerIntro + JsonAnalyzerTool + " tool to analyze JSON numeric data."
  const WeatherPromptBody := WeatherIntro + WeatherTool + " tool to get the forecast for a location."
  const SendEmailPromptBody := SendEmailIntro + SendEmailTool + " tool to send messages."

  /** Prompt name to the constant string its (argument-free) body returns. */
  const PromptBodies: map<string, string> := map[
    CalculatorPrompt := CalculatorPromptBody,
    JsonAnalyzerPrompt := JsonAnalyzerPromptBody,
    WeatherPrompt := WeatherPromptBody,
    SendEmailPrompt := SendEmailPromptBody
  ]

  /** The tool each prompt template steers the caller towards. */
  const PromptTool: map<string, string> := map[
    CalculatorPrompt := CalculatorTool,
    JsonAnalyzerPrompt := JsonAnalyzerTool,
    WeatherPrompt := WeatherTool,
    SendEmailPrompt := SendEmailTool
  ]

  /** No two entries of `names` are equal. */
  predicate Distinct(names: seq<string>)
  {
    forall i, j :: 0 <= i < j < |names| ==> names[i] != names[j]
  }

  /** `word` occurs in `text` starting at position `i`. */
  predicate OccursAt(text: string, word: string, i: nat)
  {
    i + |word| <= |text| && text[i..i + |word|] == word
  }

  lemma OccursBetween(before: string, word: string, after: string)
    ensures OccursAt(before + word + after, word, |before|)
  {
    assert (before + word + after)[|before|..|before| + |word|] == word;
  }

  /** `word` occurs somewhere inside `text`. */
  predicate Mentions(text: string, word: string)
  {
    exists i: nat | i <= |text| :: OccursAt(text, word, i)
  }

  /** Looking up a tool by name: its description, or None for a name that
      was never registered. */
  function DescribeTool(name: string): (r: Option<string>)
    ensures r.Some? <==> name in ToolNames
    ensures r.Some? ==> r.value == ToolDescriptions[name]
  {
    if name in ToolDescriptions then Some(ToolDescriptions[name]) else None
  }

  /** Looking up a prompt template by name: its description, or None for a
      name that was never registered. */
  function DescribePrompt(name: string): (r: Option<string>)
    ensures r.Some? <==> name in PromptNames
    ensures r.Some? ==> r.value == PromptDescriptions[name]
  {
    if name in PromptDescriptions then Some(PromptDescriptions[name]) else None
  }

  /** Rendering a prompt: its fixed body, or None for an unknown prompt name.
      The prompt takes no argument, so every call with the same name gives the
      same string. */
  function RenderPrompt(name: string): (r: Option<string>)
    ensures r.Some? <==> name in PromptNames
    ensures r.Some? ==> r.value == PromptBodies[name]
  {
    if name in PromptBodies then Some(PromptBodies[name]) else None
  }

  /** The four tool names are pairwise distinct, the four prompt names are
      pairwise distinct, and no name is both a tool and a prompt. */
  lemma NamesDistinct()
    ensures Distinct(ToolNames) && |ToolNames| == 4
    ensures Distinct(PromptNames) && |PromptNames| == 4
    ensures forall n :: n in ToolNames ==> n !in PromptNames
  {
  }

  /** Every prompt body names a registered tool: the one it is paired with. */
  lemma PromptsNameTheirTool()
    ensures forall p :: p in PromptNames ==> p in PromptTool && PromptTool[p] in ToolNames
    ensures forall p :: p in PromptNames ==> RenderPrompt(p).Some? && Mentions(RenderPrompt(p).value, PromptTool[p])
  {
    OccursBetween(CalculatorIntro, CalculatorTool, " tool to evaluate expressions.");
    OccursBetween(JsonAnalyzerIntro, JsonAnalyzerTool, " tool to analyze JSON numeric data.");
    OccursBetween(WeatherIntro, WeatherTool, " tool to get the forecast for a location.");
    OccursBetween(SendEmailIntro, SendEmailTool, " tool to send messages.");
  }
}
