/** Conversion between the parts of a tool and the flat rows of the grid editor.
    Each direction is a loop method, specified by a function; the lemmas state
    which rows survive, in which order, and when a round trip is lossless. */
module Transcoder {
  import opened ToolModel
  import Csv
  import Seqs

  /** A row of the inputs grid; the options are one comma-separated cell. */
  datatype InputRow = InputRow(id: string, caption: string, kind: InputType, optionsCsv: string)

  /** A row of the scoring grid. */
  datatype ScoringRow = ScoringRow(inputId: string, favorValuesCsv: string, againstValuesCsv: string, invertFavor: bool)

  /** One condition column pair `input_id_k` / `value_k` of the rules grid. */
  datatype Slot = Slot(inputId: string, value: string)

  /** A row of the rules grid. Slot k stands for the columns `input_id_{k+1}` and
      `value_{k+1}`; a slot the row lacks reads as two empty cells. */
  datatype RuleRow = RuleRow(name: string, level: Level, message: string, slots: seq<Slot>)

  /** The grid has condition columns for three conditions only. */
  const SlotCount: nat := 3

  const EmptySlot := Slot("", "")

  // ---------------------------------------------------------------- inputs

  function InputRowOf(item: InputField): InputRow
  {
    InputRow(item.id, item.caption, item.kind, Csv.JoinOptions(item.options))
  }

  function InputRowsOf(inputs: seq<InputField>): seq<InputRow>
  {
    Seqs.Map(inputs, InputRowOf)
  }

  predicate HasId(row: InputRow)
  {
    row.id != ""
  }

  function InputOfRow(row: InputRow): InputField
  {
    InputField(Csv.Strip(row.id), Csv.Strip(row.caption), row.kind, Csv.NormalizeOptions(row.optionsCsv))
  }

  /** The inputs read back from the grid: one per row with a non-empty id, in row order. */
  function InputsOfRows(rows: seq<InputRow>): seq<InputField>
  {
    Seqs.Select(rows, HasId, InputOfRow)
  }

  method ToolToInputRows(tool: Tool) returns (rows: seq<InputRow>)
    ensures rows == InputRowsOf(tool.inputs)
  {
    rows := [];
    for i := 0 to |tool.inputs|
      invariant |rows| == i
      invariant forall k :: 0 <= k < i ==> rows[k] == InputRowOf(tool.inputs[k])
    {
      var item := tool.inputs[i];
      rows := rows + [InputRow(item.id, item.caption, item.kind, Csv.JoinOptions(item.options))];
    }
  }

  method InputRowsToTool(rows: seq<InputRow>) returns (inputs: seq<InputField>)
    ensures inputs == InputsOfRows(rows)
  {
    inputs := [];
    for i := 0 to |rows|
      invariant inputs == InputsOfRows(rows[..i])
    {
      Seqs.SelectSnoc(rows, HasId, InputOfRow, i);
      var row := rows[i];
      if row.id == "" {
        continue;
      }
      inputs := inputs + [InputField(Csv.Strip(row.id), Csv.Strip(row.caption), row.kind, Csv.NormalizeOptions(row.optionsCsv))];
    }
    assert rows[..|rows|] == rows;
  }

  /** Reading the grid keeps exactly the rows with a non-empty id, in order: there are
      as many inputs as such rows, the row at index i becomes input number
      CountKept(rows[..i]), and a kept row before another stays before it. */
  lemma InputRowsKept(rows: seq<InputRow>)
    ensures |InputsOfRows(rows)| == Seqs.CountKept(rows, HasId) <= |rows|
    ensures forall i :: 0 <= i < |rows| && rows[i].id != "" ==>
              Seqs.CountKept(rows[..i], HasId) < |InputsOfRows(rows)| &&
              InputsOfRows(rows)[Seqs.CountKept(rows[..i], HasId)] == InputOfRow(rows[i])
    ensures forall i, j :: 0 <= i < j < |rows| && rows[i].id != "" ==>
              Seqs.CountKept(rows[..i], HasId) < Seqs.CountKept(rows[..j], HasId)
  {
    Seqs.SelectLength(rows, HasId, InputOfRow);
    forall i | 0 <= i < |rows| && rows[i].id != ""
      ensures Seqs.CountKept(rows[..i], HasId) < |InputsOfRows(rows)|
      ensures InputsOfRows(rows)[Seqs.CountKept(rows[..i], HasId)] == InputOfRow(rows[i])
    {
      Seqs.SelectAt(rows, HasId, InputOfRow, i);
    }
    forall i, j | 0 <= i < j < |rows| && rows[i].id != ""
      ensures Seqs.CountKept(rows[..i], HasId) < Seqs.CountKept(rows[..j], HasId)
    {
      Seqs.CountKeptGrows(rows, HasId, i, j);
    }
  }

  /** The emptiness test looks at the id before it is stripped: a row whose id is only
      blanks is kept, and its input gets the empty id. */
  lemma BlankIdKept(row: InputRow)
    requires row.id != "" && forall i :: 0 <= i < |row.id| ==> Csv.IsSpace(row.id[i])
    ensures HasId(row) && InputOfRow(row).id == ""
  {
    Csv.StripBlank(row.id);
  }

  /** An input the grid shows without loss: trimmed non-empty id, trimmed label and
      CSV-safe options. */
  predicate WellFormedInput(item: InputField)
  {
    && item.id != "" && Csv.IsTrimmed(item.id) && Csv.IsTrimmed(item.caption)
    && forall k :: 0 <= k < |item.options| ==> Csv.CsvSafe(item.options[k])
  }

  /** Writing well-formed inputs to the grid and reading the grid back gives the same inputs. */
  lemma InputsRoundTrip(inputs: seq<InputField>)
    requires forall i :: 0 <= i < |inputs| ==> WellFormedInput(inputs[i])
    ensures InputsOfRows(InputRowsOf(inputs)) == inputs
  {
    forall i | 0 <= i < |inputs|
      ensures HasId(InputRowOf(inputs[i])) && InputOfRow(InputRowOf(inputs[i])) == inputs[i]
    {
      Csv.OptionsRoundTrip(inputs[i].options);
    }
    Seqs.SelectInvertsMap(inputs, InputRowOf, HasId, InputOfRow);
  }

  // --------------------------------------------------------- scoring rules

  function ScoringRowOf(rule: ScoringRule): ScoringRow
  {
    ScoringRow(rule.inputId, Csv.JoinOptions(rule.favorValues), Csv.JoinOptions(rule.againstValues), rule.invertFavor)
  }

  function ScoringRowsOf(rules: seq<ScoringRule>): seq<ScoringRow>
  {
    Seqs.Map(rules, ScoringRowOf)
  }

  predicate HasInputId(row: ScoringRow)
  {
    row.inputId != ""
  }

  function ScoringRuleOfRow(row: ScoringRow): ScoringRule
  {
    ScoringRule(Csv.Strip(row.inputId), Csv.NormalizeOptions(row.favorValuesCsv),
                Csv.NormalizeOptions(row.againstValuesCsv), row.invertFavor)
  }

  /** The scoring rules read back from the grid: one per row with a non-empty input id, in row order. */
  function ScoringRulesOfRows(rows: seq<ScoringRow>): seq<ScoringRule>
  {
    Seqs.Select(rows, HasInputId, ScoringRuleOfRow)
  }

  method ToolToScoringRows(tool: Tool) returns (rows: seq<ScoringRow>)
    ensures rows == ScoringRowsOf(tool.scoringRules)
  {
    rows := [];
    for i := 0 to |tool.scoringRules|
      invariant |rows| == i
      invariant forall k :: 0 <= k < i ==> rows[k] == ScoringRowOf(tool.scoringRules[k])
    {
      var item := tool.scoringRules[i];
      rows := rows + [ScoringRow(item.inputId, Csv.JoinOptions(item.favorValues),
                                 Csv.JoinOptions(item.againstValues), item.invertFavor)];
    }
  }

  method ScoringRowsToTool(rows: seq<ScoringRow>) returns (rules: seq<ScoringRule>)
    ensures rules == ScoringRulesOfRows(rows)
  {
    rules := [];
    for i := 0 to |rows|
      invariant rules == ScoringRulesOfRows(rows[..i])
    {
      Seqs.SelectSnoc(rows, HasInputId, ScoringRuleOfRow, i);
      var row := rows[i];
      if row.inputId == "" {
        continue;
      }
      rules := rules + [ScoringRule(Csv.Strip(row.inputId), Csv.NormalizeOptions(row.favorValuesCsv),
                                    Csv.NormalizeOptions(row.againstValuesCsv), row.invertFavor)];
    }
    assert rows[..|rows|] == rows;
  }

  /** Reading the scoring grid keeps exactly the rows with a non-empty input id, in order. */
  lemma ScoringRowsKept(rows: seq<ScoringRow>)
    ensures |ScoringRulesOfRows(rows)| == Seqs.CountKept(rows, HasInputId) <= |rows|
    ensures forall i :: 0 <= i < |rows| && rows[i].inputId != "" ==>
              Seqs.CountKept(rows[..i], HasInputId) < |ScoringRulesOfRows(rows)| &&
              ScoringRulesOfRows(rows)[Seqs.CountKept(rows[..i], HasInputId)] == ScoringRuleOfRow(rows[i])
    ensures forall i, j :: 0 <= i < j < |rows| && rows[i].inputId != "" ==>
              Seqs.CountKept(rows[..i], HasInputId) < Seqs.CountKept(rows[..j], HasInputId)
  {
    Seqs.SelectLength(rows, HasInputId, ScoringRuleOfRow);
    forall i | 0 <= i < |rows| && rows[i].inputId != ""
      ensures Seqs.CountKept(rows[..i], HasInputId) < |ScoringRulesOfRows(rows)|
      ensures ScoringRulesOfRows(rows)[Seqs.CountKept(rows[..i], HasInputId)] == ScoringRuleOfRow(rows[i])
    {
      Seqs.SelectAt(rows, HasInputId, ScoringRuleOfRow, i);
    }
    forall i, j | 0 <= i < j < |rows| && rows[i].inputId != ""
      ensures Seqs.CountKept(rows[..i], HasInputId) < Seqs.CountKept(rows[..j], HasInputId)
    {
      Seqs.CountKeptGrows(rows, HasInputId, i, j);
    }
  }

  /** As for input rows, the emptiness test looks at the input id before it is stripped:
      a row whose input id is only blanks is kept, and its rule gets the empty input id. */
  lemma ScoringBlankIdKept(row: ScoringRow)
    requires row.inputId != "" && forall i :: 0 <= i < |row.inputId| ==> Csv.IsSpace(row.inputId[i])
    ensures HasInputId(row) && ScoringRuleOfRow(row).inputId == ""
  {
    Csv.StripBlank(row.inputId);
  }

  /** A scoring rule the grid shows without loss. */
  predicate WellFormedScoringRule(rule: ScoringRule)
  {
    && rule.inputId != "" && Csv.IsTrimmed(rule.inputId)
    && (forall k :: 0 <= k < |rule.favorValues| ==> Csv.CsvSafe(rule.favorValues[k]))
    && (forall k :: 0 <= k < |rule.againstValues| ==> Csv.CsvSafe(rule.againstValues[k]))
  }

  /** Writing well-formed scoring rules to the grid and reading it back gives the same rules. */
  lemma ScoringRoundTrip(rules: seq<ScoringRule>)
    requires forall i :: 0 <= i < |rules| ==> WellFormedScoringRule(rules[i])
    ensures ScoringRulesOfRows(ScoringRowsOf(rules)) == rules
  {
    forall i | 0 <= i < |rules|
      ensures HasInputId(ScoringRowOf(rules[i])) && ScoringRuleOfRow(ScoringRowOf(rules[i])) == rules[i]
    {
      Csv.OptionsRoundTrip(rules[i].favorValues);
      Csv.OptionsRoundTrip(rules[i].againstValues);
    }
    Seqs.SelectInvertsMap(rules, ScoringRowOf, HasInputId, ScoringRuleOfRow);
  }

  // ---------------------------------------------------- recommendation rules

  /** Slot k of a rule's row: its condition k when it has one, else two empty cells. */
  function SlotOf(conditions: seq<Condition>, k: nat): Slot
  {
    if k < |conditions| then Slot(conditions[k].inputId, conditions[k].value) else EmptySlot
  }

  function RuleRowOf(rule: RecommendationRule): RuleRow
  {
    var c := rule.conditions;
    RuleRow(rule.name, rule.level, rule.message, [SlotOf(c, 0), SlotOf(c, 1), SlotOf(c, 2)])
  }

  function RuleRowsOf(rules: seq<RecommendationRule>): seq<RuleRow>
  {
    Seqs.Map(rules, RuleRowOf)
  }

  /** The cells a row holds for slot k; a slot the row lacks reads as empty. */
  function SlotAt(row: RuleRow, k: nat): Slot
  {
    if k < |row.slots| then row.slots[k] else EmptySlot
  }

  /** The three condition slots the reader looks at, in column order. */
  function RowSlots(row: RuleRow): seq<Slot>
  {
    [SlotAt(row, 0), SlotAt(row, 1), SlotAt(row, 2)]
  }

  /** A slot yields a condition when its stripped input id and its value are both non-empty. */
  predicate SlotFilled(slot: Slot)
  {
    Csv.Strip(slot.inputId) != "" && slot.value != ""
  }

  function ConditionOfSlot(slot: Slot): Condition
  {
    Condition(Csv.Strip(slot.inputId), "equals", slot.value)
  }

  function ConditionsOfRow(row: RuleRow): seq<Condition>
  {
    Seqs.Select(RowSlots(row), SlotFilled, ConditionOfSlot)
  }

  predicate HasName(row: RuleRow)
  {
    row.name != ""
  }

  function RuleOfRow(row: RuleRow): RecommendationRule
  {
    RecommendationRule(row.name, row.level, row.message, ConditionsOfRow(row))
  }

  /** The rules read back from the grid: one per row with a non-empty name, in row order. */
  function RulesOfRows(rows: seq<RuleRow>): seq<RecommendationRule>
  {
    Seqs.Select(rows, HasName, RuleOfRow)
  }

  method ToolToRuleRows(tool: Tool) returns (rows: seq<RuleRow>)
    ensures rows == RuleRowsOf(tool.rules)
  {
    rows := [];
    for i := 0 to |tool.rules|
      invariant |rows| == i
      invariant forall k :: 0 <= k < i ==> rows[k] == RuleRowOf(tool.rules[k])
    {
      var rule := tool.rules[i];
      var conditions := rule.conditions;
      var slots: seq<Slot> := [];
      for idx := 0 to SlotCount
        invariant |slots| == idx
        invariant forall k :: 0 <= k < idx ==> slots[k] == SlotOf(conditions, k)
      {
        if idx < |conditions| {
          slots := slots + [Slot(conditions[idx].inputId, conditions[idx].value)];
        } else {
          slots := slots + [Slot("", "")];
        }
      }
      assert slots == RuleRowOf(rule).slots;
      rows := rows + [RuleRow(rule.name, rule.level, rule.message, slots)];
    }
  }

  /** The inner loop of `rule_rows_to_tool`: the conditions of the three slots of one row. */
  method ReadConditions(row: RuleRow) returns (conditions: seq<Condition>)
    ensures conditions == ConditionsOfRow(row)
  {
    conditions := [];
    ghost var slots := RowSlots(row);
    for idx := 0 to SlotCount
      invariant conditions == Seqs.Select(slots[..idx], SlotFilled, ConditionOfSlot)
    {
      Seqs.SelectSnoc(slots, SlotFilled, ConditionOfSlot, idx);
      var slot := if idx < |row.slots| then row.slots[idx] else Slot("", "");
      assert slot == slots[idx];
      var inputId := Csv.Strip(slot.inputId);
      var value := slot.value;
      if inputId != "" && value != "" {
        conditions := conditions + [Condition(inputId, "equals", value)];
      }
    }
    assert slots[..SlotCount] == slots;
  }

  method RuleRowsToTool(rows: seq<RuleRow>) returns (rules: seq<RecommendationRule>)
    ensures rules == RulesOfRows(rows)
  {
    rules := [];
    for i := 0 to |rows|
      invariant rules == RulesOfRows(rows[..i])
    {
      Seqs.SelectSnoc(rows, HasName, RuleOfRow, i);
      var row := rows[i];
      if row.name == "" {
        continue;
      }
      var conditions := ReadConditions(row);
      rules := rules + [RecommendationRule(row.name, row.level, row.message, conditions)];
    }
    assert rows[..|rows|] == rows;
  }

  /** Every row of the rules grid has exactly three condition slots: slot k holds
      condition k when the rule has one and two empty cells otherwise, so a fourth
      or later condition does not reach the grid. */
  lemma RuleRowShape(rule: RecommendationRule)
    ensures |RuleRowOf(rule).slots| == SlotCount
    ensures forall k :: 0 <= k < SlotCount && k < |rule.conditions| ==>
              RuleRowOf(rule).slots[k] == Slot(rule.conditions[k].inputId, rule.conditions[k].value)
    ensures forall k :: |rule.conditions| <= k < SlotCount ==> RuleRowOf(rule).slots[k] == Slot("", "")
  {
  }

  /** A row read back has at most three conditions; each comes from a filled slot, has a
      stripped non-empty input id, a non-empty value and the operator "equals", and the
      filled slots keep their column order. */
  lemma RowConditions(row: RuleRow)
    ensures |ConditionsOfRow(row)| == Seqs.CountKept(RowSlots(row), SlotFilled) <= SlotCount
    ensures forall j :: 0 <= j < |ConditionsOfRow(row)| ==>
              var c := ConditionsOfRow(row)[j];
              c.inputId != "" && Csv.IsTrimmed(c.inputId) && c.value != "" && c.op == "equals"
    ensures forall k :: 0 <= k < SlotCount && SlotFilled(SlotAt(row, k)) ==>
              Seqs.CountKept(RowSlots(row)[..k], SlotFilled) < |ConditionsOfRow(row)| &&
              ConditionsOfRow(row)[Seqs.CountKept(RowSlots(row)[..k], SlotFilled)] == ConditionOfSlot(SlotAt(row, k))
  {
    Seqs.SelectLength(RowSlots(row), SlotFilled, ConditionOfSlot);
    RowConditionsFormed(row);
    RowConditionsPlaced(row);
  }

  lemma RowConditionsFormed(row: RuleRow)
    ensures forall j :: 0 <= j < |ConditionsOfRow(row)| ==>
              var c := ConditionsOfRow(row)[j];
              c.inputId != "" && Csv.IsTrimmed(c.inputId) && c.value != "" && c.op == "equals"
  {
    forall j | 0 <= j < |ConditionsOfRow(row)|
      ensures var c := ConditionsOfRow(row)[j];
              c.inputId != "" && Csv.IsTrimmed(c.inputId) && c.value != "" && c.op == "equals"
    {
      Seqs.SelectFrom(RowSlots(row), SlotFilled, ConditionOfSlot, j);
    }
  }

  lemma RowConditionsPlaced(row: RuleRow)
    ensures forall k :: 0 <= k < SlotCount && SlotFilled(SlotAt(row, k)) ==>
              Seqs.CountKept(RowSlots(row)[..k], SlotFilled) < |ConditionsOfRow(row)| &&
              ConditionsOfRow(row)[Seqs.CountKept(RowSlots(row)[..k], SlotFilled)] == ConditionOfSlot(SlotAt(row, k))
  {
    var slots := RowSlots(row);
    forall k | 0 <= k < SlotCount && SlotFilled(SlotAt(row, k))
      ensures Seqs.CountKept(slots[..k], SlotFilled) < |ConditionsOfRow(row)|
      ensures ConditionsOfRow(row)[Seqs.CountKept(slots[..k], SlotFilled)] == ConditionOfSlot(SlotAt(row, k))
    {
      Seqs.SelectAt(slots, SlotFilled, ConditionOfSlot, k);
    }
  }

  /** A condition the grid shows without loss. */
  predicate WellFormedCondition(c: Condition)
  {
    c.inputId != "" && Csv.IsTrimmed(c.inputId) && c.value != "" && c.op == "equals"
  }

  function Min(a: nat, b: nat): nat
  {
    if a <= b then a else b
  }

  /** In the row of a rule with well-formed conditions, the first min(3, n) slots are
      filled and read back as those conditions; the remaining slots are empty. */
  lemma WellFormedSlots(rule: RecommendationRule)
    requires forall k :: 0 <= k < Min(SlotCount, |rule.conditions|) ==> WellFormedCondition(rule.conditions[k])
    ensures var slots := RowSlots(RuleRowOf(rule));
            && (forall k :: 0 <= k < Min(SlotCount, |rule.conditions|) ==>
                  SlotFilled(slots[k]) && ConditionOfSlot(slots[k]) == rule.conditions[k])
            && (forall k :: Min(SlotCount, |rule.conditions|) <= k < SlotCount ==> !SlotFilled(slots[k]))
  {
    var slots := RowSlots(RuleRowOf(rule));
    forall k | 0 <= k < Min(SlotCount, |rule.conditions|)
      ensures SlotFilled(slots[k]) && ConditionOfSlot(slots[k]) == rule.conditions[k]
    {
      var c := rule.conditions[k];
      assert slots[k] == Slot(c.inputId, c.value);
    }
    forall k | Min(SlotCount, |rule.conditions|) <= k < SlotCount
      ensures !SlotFilled(slots[k])
    {
      assert slots[k] == EmptySlot;
    }
  }

  /** Reading back the first m slots gives the first m conditions when each of them
      reads as its condition. */
  lemma MapSlots(slots: seq<Slot>, m: nat, cs: seq<Condition>)
    requires m <= |slots| && m <= |cs|
    requires forall k :: 0 <= k < m ==> ConditionOfSlot(slots[k]) == cs[k]
    ensures Seqs.Map(slots[..m], ConditionOfSlot) == cs[..m]
  {
  }

  /** Writing a rule to the grid and reading it back keeps its name, level and message
      and, when its first three conditions are well formed, those conditions in order;
      any further condition is lost, whatever it holds. */
  lemma RuleRowTruncates(rule: RecommendationRule)
    requires forall k :: 0 <= k < Min(SlotCount, |rule.conditions|) ==> WellFormedCondition(rule.conditions[k])
    ensures RuleOfRow(RuleRowOf(rule)).name == rule.name
    ensures RuleOfRow(RuleRowOf(rule)).level == rule.level
    ensures RuleOfRow(RuleRowOf(rule)).message == rule.message
    ensures RuleOfRow(RuleRowOf(rule)).conditions == rule.conditions[..Min(SlotCount, |rule.conditions|)]
  {
    var slots := RowSlots(RuleRowOf(rule));
    var m := Min(SlotCount, |rule.conditions|);
    WellFormedSlots(rule);
    Seqs.SelectKeptPrefix(slots, SlotFilled, ConditionOfSlot, m);
    MapSlots(slots, m, rule.conditions);
  }

  /** A rule the grid shows without loss: a name, at most three conditions, each well formed. */
  predicate WellFormedRule(rule: RecommendationRule)
  {
    && rule.name != "" && |rule.conditions| <= SlotCount
    && forall k :: 0 <= k < |rule.conditions| ==> WellFormedCondition(rule.conditions[k])
  }

  /** Writing well-formed rules to the grid and reading it back gives the same rules, in order. */
  lemma RulesRoundTrip(rules: seq<RecommendationRule>)
    requires forall i :: 0 <= i < |rules| ==> WellFormedRule(rules[i])
    ensures RulesOfRows(RuleRowsOf(rules)) == rules
  {
    forall i | 0 <= i < |rules|
      ensures HasName(RuleRowOf(rules[i])) && RuleOfRow(RuleRowOf(rules[i])) == rules[i]
    {
      RuleRowTruncates(rules[i]);
      assert rules[i].conditions[..|rules[i].conditions|] == rules[i].conditions;
    }
    Seqs.SelectInvertsMap(rules, RuleRowOf, HasName, RuleOfRow);
  }

  /** Reading the rules grid keeps exactly the rows with a non-empty name, in order. */
  lemma RuleRowsKept(rows: seq<RuleRow>)
    ensures |RulesOfRows(rows)| == Seqs.CountKept(rows, HasName) <= |rows|
    ensures forall i :: 0 <= i < |rows| && rows[i].name != "" ==>
              Seqs.CountKept(rows[..i], HasName) < |RulesOfRows(rows)| &&
              RulesOfRows(rows)[Seqs.CountKept(rows[..i], HasName)] == RuleOfRow(rows[i])
    ensures forall i, j :: 0 <= i < j < |rows| && rows[i].name != "" ==>
              Seqs.CountKept(rows[..i], HasName) < Seqs.CountKept(rows[..j], HasName)
  {
    Seqs.SelectLength(rows, HasName, RuleOfRow);
    forall i | 0 <= i < |rows| && rows[i].name != ""
      ensures Seqs.CountKept(rows[..i], HasName) < |RulesOfRows(rows)|
      ensures RulesOfRows(rows)[Seqs.CountKept(rows[..i], HasName)] == RuleOfRow(rows[i])
    {
      Seqs.SelectAt(rows, HasName, RuleOfRow, i);
    }
    forall i, j | 0 <= i < j < |rows| && rows[i].name != ""
      ensures Seqs.CountKept(rows[..i], HasName) < Seqs.CountKept(rows[..j], HasName)
    {
      Seqs.CountKeptGrows(rows, HasName, i, j);
    }
  }
}
