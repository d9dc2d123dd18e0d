# MCP Data Utility tools, modelled in Dafny

`main.py` registers four MCP tools (`mcp-send-email`, `mcp-calculator`,
`mcp-json-analyzer`, `mcp-get-weather`) and four prompt templates on a
FastMCP server. This project models the deterministic logic inside those
tools and proves properties of it:

- `registry.dfy` (module `Registry`): the tool names with their
  descriptions and the prompt names with their descriptions and the constant
  strings their bodies return, as maps with lookup.
- `calculator.dfy` (module `Calculator`): the character filter that
  `mcp-calculator` applies before evaluation, and its two outcomes: the fixed
  rejection message, or the unchanged expression handed to the evaluator.
- `recipients.dfy` (module `Recipients`): how `mcp-send-email` turns the
  comma-separated `receivers` string into a recipient list (Python
  `str.split(",")`, then `str.strip()` on each piece) and builds the `To`
  header with `", ".join`.
- `statistics.dfy` (module `Statistics`): `sum`, `min`, `max`,
  `statistics.mean` and `statistics.median` on exact reals, median through
  an insertion sort.
- `json_analyzer.dfy` (module `JsonAnalyzer`): the analyzer tool. The tool
  body is the method `RunJsonAnalyzer`, a loop over the ordered `data`
  entries that appends to `result` and returns early on the first bad entry;
  it is proved equal to the recursive function `Analyze`, about which the
  lemmas state success, key order and first-error facts and, through
  `Apply`, that each key's statistic does not depend on the order of its
  numbers.
- `wrappers.dfy` (module `Wrappers`): `Option` and `Result`.

The JSON object `data` is a sequence of `(key, value)` pairs in iteration
order. A value is either a list of items or not a list. Each item is given
as `float()` would see it: a number, or a value it rejects together with the
text of the exception it raises. An analyzer reply is
`Success(result)` (the `{"status": "success", "result": ...}` dict) or
`Error(message)` (the `{"error": ...}` dict). An error carries no results,
so the results already computed for earlier keys are discarded.

Behaviour of the code that the proofs make explicit:

- The calculator filter checks characters, not syntax. `**` and `//` are
  made of allowed characters and reach the evaluator
  (`Calculator.PowerAndFloorDivisionPass`).
- Recipients are not validated. An empty `receivers` gives one empty
  recipient (`Recipients.EmptyReceivers`), and `"a,,b"` gives
  `["a", "", "b"]` (`Recipients.EmptyBetweenCommas`).
- The error for an item that `float()` rejects does not name the key. It is
  `"Error analyzing data: "` followed by the exception text, from the
  catch-all handler.

## Model

| member | source | states |
|---|---|---|
| Registry.DescribeTool | main.py:44-100 | a name has a description exactly when it is one of the four registered tool names, and then it is the description given at registration |
| Registry.RenderPrompt | main.py:123-137 | a name renders exactly when it is one of the four prompt names, and then to that prompt's fixed string, the same on every call |
| Registry.DescribePrompt | main.py:123-137 | a name has a description exactly when it is one of the four prompt names, and then it is the description given to that prompt's decorator |
| Registry.NamesDistinct | main.py:44-137 | the four tool names are pairwise distinct, the four prompt names are pairwise distinct, and no tool name is a prompt name |
| Registry.PromptsNameTheirTool | main.py:123-137 | every prompt body renders and mentions, as a substring, a registered tool: the one it steers the caller to |
| Calculator.HasDisallowedChar | main.py:73-74 | true exactly when some character of the expression lies outside `0123456789+-*/(). ` |
| Calculator.Filter | main.py:71-76 | rejected exactly when some character is outside the alphabet, and then with the message `Invalid characters in expression.` and no evaluation; otherwise the unchanged expression, all of whose characters are allowed, goes to evaluation |
| Calculator.EmptyExpressionPasses | main.py:73-76 | the empty expression is not rejected |
| Calculator.EvaluatedHasNoIdentifier | main.py:73-76 | an expression that reaches evaluation contains no letter and no underscore |
| Calculator.PowerAndFloorDivisionPass | main.py:73-76 | `9**9` and `7//2` pass the filter and reach evaluation |
| Recipients.TrimStart | main.py:47 | the result is a suffix of the input, everything removed is whitespace, and the result does not start with whitespace |
| Recipients.TrimEnd | main.py:47 | the result is a prefix of the input, everything removed is whitespace, and the result does not end with whitespace |
| Recipients.Strip | main.py:47 | the result has no whitespace at either end, and an already stripped string is left unchanged |
| Recipients.StripExact | main.py:47 | the result is the substring of the input between a prefix that is all whitespace and a suffix that is all whitespace: only the two ends are removed |
| Recipients.Split | main.py:47 | at least one piece, and no piece contains a comma |
| Recipients.SplitCount | main.py:47 | `receivers.split(",")` has one more piece than the input has commas |
| Recipients.JoinSplit | main.py:47 | joining the pieces of a split with "," gives back the input |
| Recipients.ParseRecipients | main.py:47 | one recipient per comma-separated piece, recipient i being piece i stripped; so no recipient contains a comma or has whitespace at either end |
| Recipients.RecipientCount | main.py:47 | one recipient more than `receivers` has commas |
| Recipients.JoinShape | main.py:52 | a join of a non-empty list starts with the first part, ends with the last, and is as long as all parts plus one separator between each two neighbours |
| Recipients.HeaderShape | main.py:52 | the `To` header starts with the first recipient, ends with the last, is as long as all recipients plus two characters per gap, and for two or more recipients is the first, then ", ", then the header of the others |
| Recipients.ParseToHeader | main.py:47-52 | parsing the ", "-joined header of a non-empty list of stripped, comma-free recipients gives that list back |
| Recipients.HeaderRoundTrip | main.py:47-52 | parse, then join into the `To` header, then parse again, gives the first parse |
| Recipients.Compose | main.py:45-53 | the message has the given subject and HTML body and the fixed sender; its recipient list is the parse of `receivers`, one more than it has commas; its `To` header is that list joined with ", ", and parses back to exactly the list handed to the transport |
| Recipients.EmptyReceivers | main.py:47 | an empty `receivers` string gives the one recipient `""` |
| Recipients.EmptyBetweenCommas | main.py:47 | two commas in a row between clean addresses give an empty recipient between them, as `"a,,b"` gives `["a", "", "b"]` |
| Statistics.Min | main.py:84 | `min` is an element of the list no larger than any element |
| Statistics.Max | main.py:84 | `max` is an element of the list no smaller than any element |
| Statistics.SumAppend | main.py:84 | `sum` of two lists one after the other is the sum of their sums |
| Statistics.SumBounds | main.py:84 | when every element lies between lo and hi, n * lo <= `sum` <= n * hi for a list of n elements |
| Statistics.Mean | main.py:84 | `statistics.mean` times the length of the list is its `sum` |
| Statistics.Median | main.py:84 | for a list of odd length `statistics.median` is an element of the list |
| Statistics.MedianHalves | main.py:84 | at least half of the list is at or below `statistics.median` and at least half is at or above it |
| Statistics.Sort | main.py:84 | the sorted list used by `statistics.median` is ascending and a permutation of the input |
| Statistics.SortPermutation | main.py:84 | two lists with the same elements sort to the same list |
| Statistics.SumPermutation | main.py:84 | `sum` is unchanged by permuting the list |
| Statistics.MinMaxPermutation | main.py:84 | `min` and `max` are unchanged by permuting the list |
| Statistics.MedianPermutation | main.py:84 | `statistics.median` is unchanged by permuting the list |
| Statistics.MeanPermutation | main.py:84 | `statistics.mean` is unchanged by permuting the list |
| Statistics.MedianBounds | main.py:84 | for a non-empty list, min <= median <= max |
| Statistics.MeanBounds | main.py:84 | for a non-empty list, min <= mean <= max |
| JsonAnalyzer.LookupOperation | main.py:84-85 | an operation is found exactly when its name is one of sum, mean, median, min, max, and the one found carries that name |
| JsonAnalyzer.LookupOperationName | main.py:84 | each of the five operations is found under its own name |
| JsonAnalyzer.ApplyPermutation | main.py:84-95 | the statistic of a key's numbers does not depend on their order |
| JsonAnalyzer.Apply | main.py:84-95 | `valid_ops[operation](numbers)`: mean, median, min and max of a key's numbers lie between their minimum and maximum |
| JsonAnalyzer.ToNumbers | main.py:92 | conversion succeeds exactly when every item is a number, and then gives the numbers in order; otherwise it fails with the exception text of the first item that is not a number |
| JsonAnalyzer.Analyze | main.py:84-86 | an operation outside the five is answered with `Unsupported operation: <op>`, whatever `data` holds |
| JsonAnalyzer.RunJsonAnalyzer | main.py:82-98 | the loop over the entries, with its early returns, returns exactly `Analyze(data, operation)` |
| JsonAnalyzer.Summarize | main.py:89-95 | one iteration of the loop yields a number exactly when its value is a non-empty list of numbers, and then the statistic of those numbers |
| JsonAnalyzer.Entries | main.py:88-96 | the loop over the entries, when it succeeds, gives one result per entry, under that entry's key, in the order of `data` |
| JsonAnalyzer.AnalyzeSucceeds | main.py:88-96 | success exactly when the operation is supported and every value is a non-empty list of numbers; the result then has the keys of `data` in the same order, each with the statistic of its own numbers |
| JsonAnalyzer.EntriesSucceed | main.py:88-96 | the loop over the entries succeeds exactly when every value is a non-empty list of numbers, and then each key gets the statistic of its own numbers |
| JsonAnalyzer.EntriesFirstError | main.py:89-94 | when every earlier value is a non-empty list of numbers and entry k is not, the reply is entry k's error alone, whatever follows |
| JsonAnalyzer.AnalyzeFirstError | main.py:89-98 | for the first entry that is not a non-empty list of numbers: not a list gives `Value for '<key>' must be a list`; an empty list gives `No numbers provided for '<key>'`; an item `float()` rejects gives `Error analyzing data: <exception>` |
| JsonAnalyzer.AnalyzeEmpty | main.py:88-96 | an empty `data` with a supported operation gives success with an empty result |

## Left out

- `eval` (main.py:76-79): a general Python expression evaluator with float results; the model stops where the filtered expression is handed to it, so the `Result: ...` and `Error: ...` replies are not modelled.
- Sending the email (main.py:55-63): the mail-transport connection, `sendmail`, `quit`, logging and the success or error reply are foreign library calls and network I/O. `quit()` is skipped when `sendmail` raises; no close-on-every-path guarantee exists to model.
- MIME construction (main.py:49-53): `Recipients.Compose` keeps the subject, sender, `To` header, recipient list and HTML body as fields; the multipart encoding and `as_string()` are library code.
- Weather lookup (main.py:100-120): two outbound HTTP calls and field access on an external API response.
- FastAPI app, CORS, health endpoint, `/send_test_email`, logging and the uvicorn entrypoint (main.py:17-36, 65-67, 140-143): transport plumbing.
- FastMCP tool and prompt registration, argument validation, coercion and dispatch (main.py:14, 18 and the decorators): library behaviour not in this file. The registry is modelled as constants with lookup; no dispatcher is modelled.
- Floating point: numbers are exact reals, so float rounding in `sum`, `statistics.mean` and `statistics.median`, infinities and NaN are not modelled.
- `float()` conversion rules: which values convert (ints, floats, booleans, numeric strings) is taken as given in each `JsonAnalyzer.Item`.
- Duplicate keys: Python dict keys are distinct; the model accepts any sequence of pairs and does not rely on it.
- The prompt functions are `async`; this makes no difference to what they return, so they are constants.
