/** The evaluation engine: first-match selection of a recommendation and the
    additive favor/against tally, each a loop method proved equal to a function
    whose properties are stated as lemmas. */
module Engine {
  import opened ToolModel
  import Seqs

  /** `values.get(id)`: the value collected for an input, or None when there is none. */
  function Lookup(values: map<string, Value>, id: string): Option<Value>
  {
    if id in values then Some(values[id]) else None
  }

  /** A condition holds when the collected value is exactly the string it names; a
      missing value, or a number, never does. */
  predicate ConditionHolds(c: Condition, values: map<string, Value>)
  {
    Lookup(values, c.inputId) == Some(StringValue(c.value))
  }

  /** A rule matches when it has at least one condition and all of them hold. */
  predicate RuleMatches(rule: RecommendationRule, values: map<string, Value>)
  {
    |rule.conditions| > 0 &&
    forall k :: 0 <= k < |rule.conditions| ==> ConditionHolds(rule.conditions[k], values)
  }

  /** The index of the first matching rule, or None when no rule matches. */
  function FirstMatch(rules: seq<RecommendationRule>, values: map<string, Value>): (r: Option<nat>)
    ensures r.Some? ==> r.value < |rules| && RuleMatches(rules[r.value], values)
    ensures r.Some? ==> forall j :: 0 <= j < r.value ==> !RuleMatches(rules[j], values)
    ensures r.None? <==> forall j :: 0 <= j < |rules| ==> !RuleMatches(rules[j], values)
  {
    if rules == [] then None
    else if RuleMatches(rules[0], values) then Some(0)
    else
      match FirstMatch(rules[1..], values)
      case Some(k) => Some(k + 1)
      case None => None
  }

  const NoMatch := Outcome(Warning, "No rules matched.")

  /** The tool's fallback, or the built-in "No rules matched." warning when it has none. */
  function FallbackOf(tool: Tool): Outcome
  {
    match tool.fallback
    case Some(o) => o
    case None => NoMatch
  }

  /** What `evaluate_rules` returns: the outcome of the first matching rule, else the fallback. */
  function Recommendation(tool: Tool, values: map<string, Value>): (r: Outcome)
    ensures || (exists i :: 0 <= i < |tool.rules| && RuleMatches(tool.rules[i], values) &&
                  (forall j :: 0 <= j < i ==> !RuleMatches(tool.rules[j], values)) &&
                  r == Outcome(tool.rules[i].level, tool.rules[i].message))
            || ((forall j :: 0 <= j < |tool.rules| ==> !RuleMatches(tool.rules[j], values)) &&
                r == FallbackOf(tool))
  {
    match FirstMatch(tool.rules, values)
    case Some(i) => Outcome(tool.rules[i].level, tool.rules[i].message)
    case None => FallbackOf(tool)
  }

  method EvaluateRules(tool: Tool, values: map<string, Value>) returns (level: Level, message: string)
    ensures Outcome(level, message) == Recommendation(tool, values)
  {
    var rules := tool.rules;
    for i := 0 to |rules|
      invariant forall j :: 0 <= j < i ==> !RuleMatches(rules[j], values)
    {
      var conditions := rules[i].conditions;
      if |conditions| == 0 {
        continue;
      }
      var matches := true;
      for k := 0 to |conditions|
        invariant matches
        invariant forall m :: 0 <= m < k ==> ConditionHolds(conditions[m], values)
      {
        var actual := Lookup(values, conditions[k].inputId);
        if actual != Some(StringValue(conditions[k].value)) {
          matches := false;
          break;
        }
      }
      if matches {
        return rules[i].level, rules[i].message;
      }
    }
    var fallback := FallbackOf(tool);
    level, message := fallback.level, fallback.message;
  }

  /** The selected outcome is that of the first matching rule. */
  lemma RecommendationIsFirstMatch(tool: Tool, values: map<string, Value>, i: nat)
    requires i < |tool.rules| && RuleMatches(tool.rules[i], values)
    requires forall j :: 0 <= j < i ==> !RuleMatches(tool.rules[j], values)
    ensures Recommendation(tool, values) == Outcome(tool.rules[i].level, tool.rules[i].message)
  {
    var r := FirstMatch(tool.rules, values);
    assert r.Some?;
    assert !(r.value < i) && !(i < r.value);
  }

  /** The fallback is selected exactly when no rule matches. */
  lemma FallbackWhenNoMatch(tool: Tool, values: map<string, Value>)
    ensures FirstMatch(tool.rules, values).None? <==> forall j :: 0 <= j < |tool.rules| ==> !RuleMatches(tool.rules[j], values)
    ensures FirstMatch(tool.rules, values).None? ==> Recommendation(tool, values) == FallbackOf(tool)
    ensures tool.fallback.None? && FirstMatch(tool.rules, values).None? ==>
              Recommendation(tool, values) == Outcome(Warning, "No rules matched.")
  {
  }

  /** Of two matching rules, the earlier one wins, however specific the later one is. */
  lemma EarlierRuleWins(rules: seq<RecommendationRule>, values: map<string, Value>, i: nat, j: nat)
    requires i < j < |rules| && RuleMatches(rules[i], values)
    ensures FirstMatch(rules, values).Some? && FirstMatch(rules, values).value <= i
    ensures FirstMatch(rules, values) != Some(j)
  {
  }

  /** A rule without conditions never matches, so it is never the selected one, even as
      the first rule. */
  lemma EmptyRuleNeverSelected(rules: seq<RecommendationRule>, values: map<string, Value>, i: nat)
    requires i < |rules| && rules[i].conditions == []
    ensures FirstMatch(rules, values) != Some(i)
  {
  }

  // ------------------------------------------------------------------ scores

  /** `value in values_list` for a list of strings: a missing value or a number is in no list. */
  predicate Listed(value: Option<Value>, list: seq<string>)
  {
    value.Some? && value.value.StringValue? && value.value.s in list
  }

  /** +1 when the rule favors, -1 when it counts against, 0 when it does neither. The
      favor list is consulted first and `invertFavor` swaps the sign. */
  function Polarity(rule: ScoringRule, values: map<string, Value>): (p: int)
    ensures -1 <= p <= 1
    ensures p != 0 ==> rule.inputId != "" && rule.inputId in values
  {
    if rule.inputId == "" then 0
    else
      var value := Lookup(values, rule.inputId);
      if Listed(value, rule.favorValues) then (if rule.invertFavor then -1 else 1)
      else if Listed(value, rule.againstValues) then (if rule.invertFavor then 1 else -1)
      else 0
  }

  predicate HasInputId(rule: ScoringRule)
  {
    rule.inputId != ""
  }

  function Itself(rule: ScoringRule): ScoringRule
  {
    rule
  }

  /** What `compute_scores` returns: how many rules favor and how many count against.
      Only a rule with an input id can count, and each counts at most once. */
  function Scores(rules: seq<ScoringRule>, values: map<string, Value>): (r: (nat, nat))
    ensures r.0 + r.1 <= Seqs.CountKept(rules, HasInputId) <= |rules|
  {
    if rules == [] then (0, 0)
    else
      var (plus, minus) := Scores(rules[..|rules| - 1], values);
      var p := Polarity(rules[|rules| - 1], values);
      if p == 1 then (plus + 1, minus)
      else if p == -1 then (plus, minus + 1)
      else (plus, minus)
  }

  method ComputeScores(tool: Tool, values: map<string, Value>) returns (plus: nat, minus: nat)
    ensures (plus, minus) == Scores(tool.scoringRules, values)
  {
    plus, minus := 0, 0;
    var rules := tool.scoringRules;
    for i := 0 to |rules|
      invariant (plus, minus) == Scores(rules[..i], values)
    {
      assert rules[..i + 1][..i] == rules[..i];
      var rule := rules[i];
      if rule.inputId == "" {
        continue;
      }
      var value := Lookup(values, rule.inputId);
      var score := 0;
      if Listed(value, rule.favorValues) {
        score := if rule.invertFavor then -1 else 1;
      } else if Listed(value, rule.againstValues) {
        score := if rule.invertFavor then 1 else -1;
      }
      if score == 1 {
        plus := plus + 1;
      } else if score == -1 {
        minus := minus + 1;
      }
    }
    assert rules[..|rules|] == rules;
  }

  /** Adding one scoring rule adds at most one to exactly one counter: to `plus` when its
      value is in the favor list (checked first) and it is not inverted, or in the
      against list only and it is inverted; to `minus` in the two mirrored cases; and
      to neither when the rule has no input id or its value is in neither list. */
  lemma ScoresStep(rules: seq<ScoringRule>, rule: ScoringRule, values: map<string, Value>)
    ensures var (plus, minus) := Scores(rules, values);
            var value := Lookup(values, rule.inputId);
            var favor := Listed(value, rule.favorValues);
            var against := !favor && Listed(value, rule.againstValues);
            Scores(rules + [rule], values) ==
              if rule.inputId == "" || (!favor && !against) then (plus, minus)
              else if favor != rule.invertFavor then (plus + 1, minus)
              else (plus, minus + 1)
  {
    assert (rules + [rule])[..|rules|] == rules;
  }

  /** The scoring rules that have an input id, in order. */
  function WithInputIds(rules: seq<ScoringRule>): seq<ScoringRule>
  {
    Seqs.Select(rules, HasInputId, Itself)
  }

  /** Rules without an input id contribute nothing: dropping them leaves the tally unchanged. */
  lemma {:induction false} ScoresIgnoreEmptyIds(rules: seq<ScoringRule>, values: map<string, Value>)
    ensures Scores(WithInputIds(rules), values) == Scores(rules, values)
  {
    if rules != [] {
      var init := rules[..|rules| - 1];
      var last := rules[|rules| - 1];
      var kept := WithInputIds(init);
      ScoresIgnoreEmptyIds(init, values);
      assert WithInputIds(rules) == kept + (if HasInputId(last) then [last] else []);
      if HasInputId(last) {
        var ext := kept + [last];
        assert ext[..|ext| - 1] == kept && ext[|ext| - 1] == last;
      } else {
        assert WithInputIds(rules) == kept;
        assert Polarity(last, values) == 0;
        assert Scores(rules, values) == Scores(init, values);
      }
    }
  }

  /** The same rules with `invertFavor` flipped on every one. */
  function Inverted(rules: seq<ScoringRule>): seq<ScoringRule>
  {
    seq(|rules|, i requires 0 <= i < |rules| => rules[i].(invertFavor := !rules[i].invertFavor))
  }

  /** Flipping `invertFavor` on every rule swaps the two counters. */
  lemma {:induction false} ScoresInverted(rules: seq<ScoringRule>, values: map<string, Value>)
    ensures Scores(Inverted(rules), values) == (Scores(rules, values).1, Scores(rules, values).0)
  {
    if rules != [] {
      var n := |rules|;
      assert Inverted(rules)[..n - 1] == Inverted(rules[..n - 1]);
      ScoresInverted(rules[..n - 1], values);
    }
  }

  /** The template tool recommends its example rule for "Yes" and falls back otherwise,
      and scores "Yes" as one favoring factor and "No" as one against. */
  lemma DefaultToolExamples()
    ensures Recommendation(DefaultTool, map["example_yes_no" := StringValue("Yes")]) == Outcome(Info, "Example: Rule matched")
    ensures Recommendation(DefaultTool, map["example_yes_no" := StringValue("No")]) == Outcome(Warning, "No rules matched.")
    ensures Recommendation(DefaultTool, map[]) == Outcome(Warning, "No rules matched.")
    ensures Scores(DefaultTool.scoringRules, map["example_yes_no" := StringValue("Yes")]) == (1, 0)
    ensures Scores(DefaultTool.scoringRules, map["example_yes_no" := StringValue("No")]) == (0, 1)
    ensures Scores(DefaultTool.scoringRules, map["example_yes_no" := StringValue("Unknown")]) == (0, 0)
    ensures Scores(Inverted(DefaultTool.scoringRules), map["example_yes_no" := StringValue("Yes")]) == (0, 1)
  {
    var no := map["example_yes_no" := StringValue("No")];
    assert !ConditionHolds(DefaultTool.rules[0].conditions[0], no);
    var rules := DefaultTool.scoringRules;
    assert rules[..0] == [];
    assert Inverted(rules)[..0] == [];
  }
}
