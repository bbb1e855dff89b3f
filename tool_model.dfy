/** The canonical, nested shape of a decision tool: its inputs, its scoring rules,
    its prioritised recommendation rules and its fallback outcome. */
module ToolModel {

  datatype Option<+T> = None | Some(value: T)

  /** A value collected for an input: text from a select box or text field, or a
      number from a number field. A number never equals a string. */
  datatype Value = StringValue(s: string) | NumberValue(x: real)

  /** Severity of a recommendation, which also picks how it is displayed. */
  datatype Level = Success | Info | Warning | Error

  datatype InputType = Select | Number | Text

  /** One question of the tool; `id` is the key rules and scoring rules refer to. */
  datatype InputField = InputField(id: string, caption: string, kind: InputType, options: seq<string>)

  /** One contribution to the favor/against tally. */
  datatype ScoringRule = ScoringRule(inputId: string, favorValues: seq<string>, againstValues: seq<string>, invertFavor: bool)

  /** `values[inputId]` must equal `value`; `op` is always "equals". */
  datatype Condition = Condition(inputId: string, op: string, value: string)

  /** A candidate outcome, chosen when all its conditions hold and no earlier rule matched. */
  datatype RecommendationRule = RecommendationRule(name: string, level: Level, message: string, conditions: seq<Condition>)

  datatype Outcome = Outcome(level: Level, message: string)

  datatype Tool = Tool(
    name: string,
    description: string,
    inputs: seq<InputField>,
    scoringRules: seq<ScoringRule>,
    rules: seq<RecommendationRule>,
    fallback: Option<Outcome>)

  /** The template every new tool starts from. */
  const DefaultTool: Tool := Tool(
    "New Tool",
    "",
    [InputField("example_yes_no", "Example Yes/No?", Select, ["Yes", "No", "Unknown"])],
    [ScoringRule("example_yes_no", ["Yes"], ["No"], false)],
    [RecommendationRule("Example Rule", Info, "Example: Rule matched",
                        [Condition("example_yes_no", "equals", "Yes")])],
    Some(Outcome(Warning, "No rules matched.")))
}
