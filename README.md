# Tool definition engine of the Score System Builder

The Score System Builder is a Streamlit app. In it, a non-programmer authors small
decision-support "tools". A tool has:

- a list of inputs (questions);
- scoring rules that count factors for and against a recommendation;
- prioritised recommendation rules, each choosing a severity level and a message;
- a fallback outcome.

This project models the app's tool-definition engine in Dafny:

- `normalize_options`: reads a comma-separated editor cell as a list of options.
- The three transcoder pairs: they turn inputs, scoring rules and recommendation rules
  into the rows of the grid editor, and turn edited rows back into a tool.
- `evaluate_rules`: picks the outcome of the first rule whose conditions all hold.
- `compute_scores`: counts the favor/against tally.
- The `DEFAULT_TOOL` template.

Files and modules:

- `csv.dfy` (module `Csv`): Python's `str.strip()`, `str.split(",")` and
  `", ".join(...)` on strings, and `normalize_options`. Its main lemma is the
  round trip between writing options into a cell and reading them back.
- `seqs.dfy` (module `Seqs`): a generic filter-and-convert scan (`Select`), the count
  of kept rows and a map. The transcoders and the scorer share them. The lemmas say
  which rows survive and where each one lands.
- `tool_model.dfy` (module `ToolModel`): the tool as datatypes, and `DefaultTool`.
  Input values are `map<string, Value>`, where `Value` is a string or a number.
- `transcoder.dfy` (module `Transcoder`): each `tool_to_*_rows` and `*_rows_to_tool`
  function is a loop method. Each method is proved equal to a function on sequences.
  Lemmas cover row filtering, order, the fixed three condition slots and the round trips.
- `engine.dfy` (module `Engine`): `evaluate_rules` and `compute_scores` are loop
  methods too. `evaluate_rules` keeps the source's `matches` flag, `break` and early
  `return`. They are proved equal to `Recommendation` and `Scores`. Lemmas cover
  first-match precedence, the fallback, the counter bound, favor-first classification
  and polarity inversion.

The source only reads its arguments; it never mutates them. So every operation is a
method over values, and no class is needed.

## Model

| member | source | states |
|---|---|---|
| `Csv.StripLeft` | app.py:66 | The result is the longest suffix of the string that does not start with whitespace, and everything cut off is whitespace |
| `Csv.StripRight` | app.py:66 | The result is the longest prefix of the string that does not end with whitespace, and everything cut off is whitespace |
| `Csv.Strip` | app.py:66 | Python's `strip()`: the result neither starts nor ends with whitespace, holds only characters of its argument, and leaves an already trimmed string unchanged |
| `Csv.StripBlank` | app.py:66 | Stripping yields `""` exactly when the string is all whitespace (both directions) |
| `Csv.Split` | app.py:66 | `split(",")` yields at least one piece, and no piece holds a comma |
| `Csv.SplitJoined` | app.py:66 | Splitting the `", "`-join of comma-free pieces on commas gives back the pieces, each after the first with one leading blank |
| `Csv.Join` | app.py:77 | `sep.join(xs)`: the result is as long as the items together plus one separator between each pair of neighbours, and starts with the first item |
| `Csv.NormalizeOptionList` | app.py:64-65 | The list branch keeps at most as many items as it is given, each non-empty and trimmed |
| `Csv.NormalizeCommaFree` | app.py:64-66 | Stripping and dropping blanks adds no comma: comma-free items give comma-free options |
| `Csv.NormalizeOptions` | app.py:61-66 | An empty cell gives `[]`; every option returned is non-empty, trimmed and comma-free |
| `Csv.OptionsRoundTrip` | app.py:61-66 | For non-empty, trimmed, comma-free options, normalising their `", "`-join gives back exactly the same list in the same order |
| `Csv.NormalizeIdempotent` | app.py:61-66 | Writing normalised options back into a cell and normalising again changes nothing |
| `Csv.NormalizeExample` | app.py:61-66 | The cell `"a,, b"` reads as the options `"a"` and `"b"`: blanks around an option and the empty piece between two commas are dropped |
| `Transcoder.ToolToInputRows` | app.py:69-80 | The loop yields one row per input, in order: the input's id, label and type, with its options joined by `", "` |
| `Transcoder.InputRowsToTool` | app.py:83-96 | The loop yields `InputsOfRows(rows)`: one input per row whose id is non-empty, in row order, with the id and label stripped and the options normalised |
| `Transcoder.InputRowsKept` | app.py:83-96 | Exactly the rows with a non-empty id survive. There are `CountKept` of them, at most the number of rows. Row i becomes input number `CountKept(rows[..i])`, and kept rows keep their relative order |
| `Transcoder.BlankIdKept` | app.py:86-90 | The emptiness test sees the unstripped id. So a row whose id is only whitespace is kept, and its input's id becomes `""` |
| `Transcoder.InputsRoundTrip` | app.py:69-96 | Inputs with trimmed non-empty ids, trimmed labels and CSV-safe options survive rows and back unchanged |
| `Transcoder.ToolToScoringRows` | app.py:99-110 | The loop yields one row per scoring rule, in order: the input id, the favor and against lists joined by `", "`, and `invert_favor` |
| `Transcoder.ScoringRowsToTool` | app.py:113-126 | The loop yields one scoring rule per row whose input id is non-empty, in row order, with the id stripped and both lists normalised |
| `Transcoder.ScoringRowsKept` | app.py:113-126 | Exactly the rows with a non-empty input id survive, at most the number of rows, in their original order, each at position `CountKept(rows[..i])` |
| `Transcoder.ScoringBlankIdKept` | app.py:116-120 | The emptiness test sees the unstripped input id. So a scoring row whose input id is only whitespace is kept, and its rule's input id becomes `""` |
| `Transcoder.ScoringRoundTrip` | app.py:99-126 | Scoring rules with trimmed non-empty ids and CSV-safe favor/against values survive rows and back unchanged |
| `Transcoder.ToolToRuleRows` | app.py:129-148 | The nested loops yield one row per rule, each with exactly three condition slots built by `SlotOf` |
| `Transcoder.ReadConditions` | app.py:156-160 | The inner loop over the three slots of one row yields `ConditionsOfRow(row)`: one condition per slot with a non-empty stripped input id and a non-empty value, in slot order, a missing slot reading as two empty cells |
| `Transcoder.RuleRowsToTool` | app.py:151-170 | The nested loops yield one rule per named row, in row order. Its conditions come from the filled slots among the first three, in slot order |
| `Transcoder.RuleRowShape` | app.py:138-146 | Every row has exactly three slots. Slot k holds condition k's id and value when the rule has a condition k, and two empty cells otherwise |
| `Transcoder.RowConditions` | app.py:156-161 | A row read back has at most three conditions. Each has a stripped non-empty input id, a non-empty value and op `"equals"`, and filled slots keep their column order |
| `Transcoder.RuleRowTruncates` | app.py:129-170 | Rules to rows and back keeps the name, level and message and, when the first `min(3, n)` conditions are well formed, exactly those conditions, in order. A fourth or later condition is lost, whatever it holds |
| `Transcoder.RulesRoundTrip` | app.py:129-170 | Rules with a name and at most three well-formed conditions survive rows and back unchanged, in order |
| `Transcoder.RuleRowsKept` | app.py:151-170 | Exactly the rows with a non-empty name survive, at most the number of rows, in their original order |
| `Engine.FirstMatch` | app.py:194-207 | Returns the index of a rule that matches and is preceded by no matching rule. It returns none exactly when no rule matches. A rule matches only when it has conditions, each an exact string equality on a present key |
| `Engine.Recommendation` | app.py:193-209 | The outcome is either that of a matching rule preceded by no matching rule, or, when no rule matches, the fallback (`(warning, "No rules matched.")` when the tool has none) |
| `Engine.EvaluateRules` | app.py:193-209 | The scan with its `matches` flag, `break` and early return yields `Recommendation`: the first matching rule's level and message, else the fallback |
| `Engine.RecommendationIsFirstMatch` | app.py:194-207 | When rule i matches and no earlier rule does, the result is rule i's level and message |
| `Engine.FallbackWhenNoMatch` | app.py:208-209 | No rule is selected exactly when none matches; the fallback is then returned, or `(warning, "No rules matched.")` when the tool has none |
| `Engine.EarlierRuleWins` | app.py:194-207 | When two rules match, the selected rule is at or before the earlier one and never the later one |
| `Engine.EmptyRuleNeverSelected` | app.py:195-197 | A rule with no conditions is never the selected rule, wherever it stands |
| `Engine.Polarity` | app.py:216-227 | A rule contributes -1, 0 or +1, and is non-zero only for a non-empty input id whose value is present |
| `Engine.Scores` | app.py:212-232 | `plus + minus` is at most the number of scoring rules with an input id, and so at most the number of rules |
| `Engine.ComputeScores` | app.py:212-232 | The loop over scoring rules, with its local `score`, yields `Scores(rules, values)` |
| `Engine.ScoresStep` | app.py:219-231 | One more rule adds one to `plus` or to `minus`, or to neither. Favor membership is tested first, `invert_favor` swaps the counter, and an empty id or a value in neither list changes nothing |
| `Engine.ScoresIgnoreEmptyIds` | app.py:215-218 | Dropping the rules whose input id is empty leaves the tally unchanged |
| `Engine.ScoresInverted` | app.py:222-231 | Flipping `invert_favor` on every rule swaps `plus` and `minus` |
| `Engine.DefaultToolExamples` | app.py:10-30 | For the template tool, "Yes" selects the example rule and scores (1, 0). "No" falls back and scores (0, 1). "Unknown" scores (0, 0). With inversion, "Yes" scores (0, 1) |

## Left out

- The Streamlit user interface and session state are not modelled: `main`, `render_message`, `ensure_state`, `ensure_editing_tool` and the widgets. They drive a library this model cannot see.
- JSON persistence (`load_tools`, `save_tools`) is not modelled. It is file I/O.
- Making tool ids with `uuid` and copying tools with `deepcopy` are not modelled. Every model operation works on immutable values, so no copying or aliasing arises.
- Float handling of number inputs is not modelled. A number is `NumberValue(real)`, compared only by equality and never equal to a string, so NaN is not represented.
- Python's `dict.get` defaults for absent keys are not modelled. Rows, rules and tools are records whose fields always exist. The one exception is a rule row with fewer than three slots: a missing slot reads as two empty cells, as `row.get(key, "")` does.
- Cells left as `None` in new editor rows are not modelled. Every cell is a string. A `None` id or name would be skipped like `""`; a `None` label would make `.strip()` fail.
- Level and input type are enumerations. The editor's select-box columns offer only those values. A stored tool holding another level string is not represented.
- Condition values and favor/against entries are strings, as the editor produces them. A JSON-stored tool with a non-string condition value is not represented, and neither is the `str(o)` conversion in the list branch of `normalize_options`.
- Whitespace is the set of characters Python's `str.isspace()` accepts. Strings are sequences of Unicode scalar values, with no normalisation.
- Three behaviours of the source that are easy to misread, all modelled as the source has them:
  - Favor and against values are ordered lists tested with `in`, not sets; the model keeps them as sequences.
  - A condition whose value is only blanks is kept, because only the condition's input id is stripped (app.py:158-160).
  - A fourth or later condition is already lost when rows are written, because `tool_to_rule_rows` emits only three slots per row (app.py:138); reading rows back also looks at only three.
