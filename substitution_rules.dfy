/**
 * Rule generation of build_opsz_glyphs.py: after all sources are processed, `main`
 * builds one substitution rule per (intPart, fracPart) pair. Each rule swaps the
 * placeholder glyph for that pair's label glyph while the `opsz` axis lies in
 * [intPart + fracPart/10, intPart + fracPart/10 + 0.099]. The bounds are kept here
 * in exact thousandths of an axis unit.
 */
module SubstitutionRules {
  import opened Wrappers
  import opened OpszNames
  import opened OpszGlyphs

  const AxisName: string := "opsz"
  const Placeholder: string := "underscore"

  /** One axis condition, bounds in thousandths of an axis unit. */
  datatype Condition = Condition(name: string, minimum: int, maximum: int)

  /** A `RuleDescriptor`: its name, its condition sets and its substitutions (from, to). */
  datatype Rule = Rule(name: string, conditionSets: seq<seq<Condition>>, subs: seq<(string, string)>)

  /** The rule for one label. */
  function OpszRule(intPart: nat, fracPart: nat): Rule
  {
    var minimum := 1000 * intPart + 100 * fracPart;
    Rule(OpszRuleName(intPart, fracPart),
         [[Condition(AxisName, minimum, minimum + 99)]],
         [(Placeholder, OpszGlyphName(intPart, fracPart))])
  }

  /**
   * The rule of a label: its name and the glyph it substitutes for the placeholder both
   * read back as (intPart, fracPart), and its one condition holds the `opsz` axis
   * between intPart.fracPart and 0.099 above it.
   */
  lemma OpszRuleLabel(intPart: nat, fracPart: nat)
    ensures var rule := OpszRule(intPart, fracPart);
      && ParseLabelName(RulePrefix, rule.name) == Some((intPart, fracPart))
      && |rule.conditionSets| == 1 && |rule.conditionSets[0]| == 1
      && rule.conditionSets[0][0].name == AxisName
      && rule.conditionSets[0][0].maximum == rule.conditionSets[0][0].minimum + 99
      && (fracPart < FracPartEnd ==>
            && rule.conditionSets[0][0].minimum / 1000 == intPart
            && rule.conditionSets[0][0].minimum % 1000 == 100 * fracPart)
      && |rule.subs| == 1 && rule.subs[0].0 == Placeholder
      && ParseLabelName(GlyphPrefix, rule.subs[0].1) == Some((intPart, fracPart))
  {
    ParseLabelNameRoundTrip(RulePrefix, intPart, fracPart);
    ParseLabelNameRoundTrip(GlyphPrefix, intPart, fracPart);
  }

  /** The rules of `main`, one per pair, in intPart-then-fracPart order. */
  function OpszRules(): (rules: seq<Rule>)
    ensures |rules| == |OpszPairs()|
  {
    var pairs := OpszPairs();
    seq(|pairs|, k requires 0 <= k < |pairs| => OpszRule(pairs[k].0, pairs[k].1))
  }

  /** The single condition of rule `k`. */
  function ConditionOf(k: nat): Condition
    requires k < |OpszRules()|
  {
    OpszRules()[k].conditionSets[0][0]
  }

  /** The rule at step `(intPart - 8) * 10 + fracPart` is the rule of (intPart, fracPart). */
  lemma OpszRuleAt(intPart: nat, fracPart: nat)
    requires IntPartStart <= intPart < IntPartEnd && fracPart < FracPartEnd
    ensures (intPart - IntPartStart) * FracPartEnd + fracPart < |OpszRules()|
    ensures OpszRules()[(intPart - IntPartStart) * FracPartEnd + fracPart] == OpszRule(intPart, fracPart)
  {
    OpszPairAt(intPart, fracPart);
  }

  /** Appending the rule of the next pair extends the prefix built so far by one. */
  lemma OpszRulesStep(intPart: nat, fracPart: nat)
    requires IntPartStart <= intPart < IntPartEnd && fracPart < FracPartEnd
    ensures var n := (intPart - IntPartStart) * FracPartEnd + fracPart;
      n < |OpszRules()| && OpszRules()[..n + 1] == OpszRules()[..n] + [OpszRule(intPart, fracPart)]
  {
    OpszRuleAt(intPart, fracPart);
  }

  /**
   * The rule-building loop of `main`: append the rule of each pair, intPart in
   * [8, 144] outside, fracPart in [0, 9] inside.
   */
  method BuildRules() returns (rules: seq<Rule>)
    ensures rules == OpszRules()
  {
    rules := [];
    ghost var all := OpszRules();
    for intPart := IntPartStart to IntPartEnd
      invariant |rules| == (intPart - IntPartStart) * FracPartEnd
      invariant rules == all[..|rules|]
    {
      for fracPart := 0 to FracPartEnd
        invariant |rules| == (intPart - IntPartStart) * FracPartEnd + fracPart
        invariant rules == all[..|rules|]
      {
        OpszRulesStep(intPart, fracPart);
        rules := rules + [OpszRule(intPart, fracPart)];
      }
    }
    assert rules == all;
  }

  /**
   * Rule `k` has one condition on the `opsz` axis from 1000*intPart + 100*fracPart
   * to 99 thousandths above it, and substitutes the placeholder with the label glyph.
   */
  lemma OpszRuleShape(k: nat)
    requires k < |OpszRules()|
    ensures var (intPart, fracPart) := OpszPairs()[k];
      var rule := OpszRules()[k];
      && IntPartStart <= intPart < IntPartEnd && fracPart < FracPartEnd
      && rule.name == OpszRuleName(intPart, fracPart)
      && |rule.conditionSets| == 1 && |rule.conditionSets[0]| == 1
      && ConditionOf(k).name == AxisName
      && ConditionOf(k).minimum == 1000 * intPart + 100 * fracPart
      && ConditionOf(k).maximum == ConditionOf(k).minimum + 99
      && rule.subs == [(Placeholder, OpszGlyphName(intPart, fracPart))]
      && rule.subs[0].1 in OpszGlyphNames()
  {
    OpszPairsCover(OpszPairs()[k]);
    assert OpszGlyphNames()[k] == OpszGlyphName(OpszPairs()[k].0, OpszPairs()[k].1);
  }

  /** The minimum of rule `k` is 8000 + 100*k thousandths: consecutive rules step by 0.1. */
  lemma ConditionMinimum(k: nat)
    requires k < |OpszRules()|
    ensures ConditionOf(k).minimum == 1000 * IntPartStart + 100 * k
    ensures ConditionOf(k).maximum == ConditionOf(k).minimum + 99
  {
    assert k == 10 * (k / 10) + k % 10;
  }

  /** Later rules have strictly higher intervals: the conditions never overlap. */
  lemma RuleIntervalsOrdered(j: nat, k: nat)
    requires j < k < |OpszRules()|
    ensures ConditionOf(j).maximum < ConditionOf(k).minimum
  {
    ConditionMinimum(j);
    ConditionMinimum(k);
  }

  /**
   * Every axis value from 8.000 to 144.999, in thousandths, lies in the interval of
   * exactly one rule, namely rule (value / 100) - 80.
   */
  lemma RuleIntervalsTile(value: int)
    requires 1000 * IntPartStart <= value < 1000 * IntPartEnd
    ensures var k := value / 100 - 10 * IntPartStart;
      && 0 <= k < |OpszRules()|
      && ConditionOf(k).minimum <= value <= ConditionOf(k).maximum
    ensures forall j :: 0 <= j < |OpszRules()| && ConditionOf(j).minimum <= value <= ConditionOf(j).maximum ==>
      j == value / 100 - 10 * IntPartStart
  {
    var k := value / 100 - 10 * IntPartStart;
    ConditionMinimum(k);
    forall j | 0 <= j < |OpszRules()| && ConditionOf(j).minimum <= value <= ConditionOf(j).maximum
      ensures j == k
    {
      ConditionMinimum(j);
    }
  }

  /** Exactly 1370 rules, with pairwise distinct names. */
  lemma OpszRuleCount()
    ensures |OpszRules()| == 1370
    ensures forall j, k :: 0 <= j < k < |OpszRules()| ==> OpszRules()[j].name != OpszRules()[k].name
  {
    forall j, k | 0 <= j < k < |OpszRules()| ensures OpszRules()[j].name != OpszRules()[k].name {
      OpszPairsOrdered(j, k);
      var a, b := OpszPairs()[j], OpszPairs()[k];
      if OpszRuleName(a.0, a.1) == OpszRuleName(b.0, b.1) {
        OpszRuleNameInjective(a.0, a.1, b.0, b.1);
      }
    }
  }
}
