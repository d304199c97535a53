# Robopsz optical-size label glyphs, modelled in Dafny

`sources/build_opsz_glyphs.py` builds the numeric "optical size" label glyphs of a
variable font and the substitution rules that pick them. For every source of a
designspace document the script does three things:

- It reads the advance widths of the base glyphs: `period`, then the ten digit glyphs `zero` to `nine`.
- For every pair (intPart, fracPart) with intPart in [8, 144] and fracPart in [0, 9], it writes a composite glyph `opsz.<intPart>_<fracPart>`.
  - The glyph is built from the digit glyphs of `str(intPart)`, the period, and the digit glyphs of `str(fracPart)`.
  - The components are placed side by side, each at the sum of the advances before it.
  - The glyph's width is the sum of all the advances.
- After all sources, it replaces the document's rules with 1370 new rules. Each rule substitutes the `underscore` placeholder with one label glyph. It applies while the `opsz` axis lies between intPart + fracPart/10 and that value plus 0.099.

The model has these modules:

- `Numerals`: the `numberToGlyphName` table, Python's `str` on non-negative integers, and `glyphNamesFromNumber`, together with the reverse direction, which reads digit glyph names back into a number.
- `OpszNames`: the glyph name `opsz.<i>_<f>` and the rule name `opsz<i>_<f>`, with a parser that reads both back. The parser is what proves the names injective.
- `ComponentLayout`: `_componentsToPen` and the width loop of `createOPSZGlyph` as imperative loops. Each loop is proved against `SumAdvances` and `Layout`, which are prefix sums over the component list. The pen is modelled as the sequence of `addComponent` calls it receives.
- `GlyphWrites`: a run of `writeGlyph` calls, folded over a map, with lemmas that say which entry each name ends up with.
- `OpszGlyphs`: the glyph set, modelled as a class whose map field `writeGlyph` updates, plus:
  - `_readGlyph`;
  - the advance-table loop of `main`;
  - `createOPSZGlyph`;
  - the nested per-source loop;
  - what a source contains after generation.
- `SubstitutionRules`: the rule-building loop. Rule bounds are held in exact thousandths of an axis unit.
- `Designspace`: `main` over an in-memory document. The document is a class whose `rules` field `main` replaces.

A Python `KeyError` is modelled as `Result.Err` carrying the name that was looked up and missing. The contracts state that this is the first missing name in the order the lookups are made (`FirstMissing`).

Three points of the code that the contracts keep exactly:

- `createOPSZGlyph` takes the fraction's components from `glyphNamesFromNumber(fracPart)`. For fracPart < 10 that is the single digit glyph of fracPart (`ComponentListOfLabel`).
- Each rule's condition carries both a `minimum` and a `maximum`. The model keeps both and reads them as inclusive bounds.
- `main` reads all eleven base glyphs of a source before it writes any label glyph into it. A source that lacks one is left untouched, the sources before it keep their new glyphs, and the sources after it are never reached (`GenerateSource`, `GenerateSources`, `GenerateDocument`).

## Model

| member | source | states |
|---|---|---|
| Numerals.DecimalDigits | sources/build_opsz_glyphs.py:31 | the digits of `str(n)` are canonical (at least one digit, each below ten, no leading zero) and read back as `n` |
| Numerals.DecimalString | sources/build_opsz_glyphs.py:31 | `str(n)` has `NumDigits(n)` characters, each a decimal digit whose `int` value is the matching digit of `n` |
| Numerals.GlyphNamesFromNumber | sources/build_opsz_glyphs.py:30-31 | one name per character of `str(n)`: the table entry of that digit; every name is a digit glyph; a one-digit number gives exactly its own name |
| Numerals.DigitNamesDistinct | sources/build_opsz_glyphs.py:8-19 | the ten table entries are pairwise distinct, so a name determines its digit |
| Numerals.DigitCount | sources/build_opsz_glyphs.py:31 | `n` has `d = NumDigits(n)` digits: `n < 10^d`, and `10^(d-1) <= n` when `n >= 1` |
| Numerals.CanonicalDigitsRoundTrip | sources/build_opsz_glyphs.py:31 | every canonical digit sequence is `str` of the number it spells |
| Numerals.NumberFromNamesOfNumber | sources/build_opsz_glyphs.py:30-31 | round trip: the names of `n`, read back through the table, give `n` |
| Numerals.NamesOfNumberFromNames | sources/build_opsz_glyphs.py:30-31 | reverse round trip: a non-empty list of digit names without a leading `zero` (unless alone) is the name list of the number it spells |
| Numerals.DecimalStringInjective | sources/build_opsz_glyphs.py:31 | `str` is injective on non-negative integers |
| OpszNames.OpszGlyphName | sources/build_opsz_glyphs.py:27-28 | the name starts with `opsz.` and is as long as the prefix, both numbers and the underscore |
| OpszNames.OpszRuleName | sources/build_opsz_glyphs.py:75 | the rule name starts with `opsz` and is as long as the prefix, both numbers and the underscore |
| OpszNames.IndexOfAfter | sources/build_opsz_glyphs.py:28 | in `a + "_" + b` with no underscore in `a`, the first underscore is just after `a`: where a label's integer part ends |
| OpszNames.ParseDecimalString | sources/build_opsz_glyphs.py:28 | parsing the decimal text of `n` gives `n` back |
| OpszNames.ParseLabelNameOf | sources/build_opsz_glyphs.py:28 | any `<prefix><digits>_<digits>` parses back to the values of its two digit strings |
| OpszNames.ParseLabelNameRoundTrip | sources/build_opsz_glyphs.py:27-28 | round trip: a label name parses back to the (intPart, fracPart) it was made from |
| OpszNames.OpszGlyphNameInjective | sources/build_opsz_glyphs.py:27-28 | equal glyph names imply equal (intPart, fracPart) pairs |
| OpszNames.OpszRuleNameInjective | sources/build_opsz_glyphs.py:75 | equal rule names imply equal pairs |
| OpszNames.OpszGlyphNameExamples | sources/build_opsz_glyphs.py:27-28 | the first and last generated names are `opsz.8_0` and `opsz.144_9` |
| ComponentLayout.ComponentsToPen | sources/build_opsz_glyphs.py:34-39 | succeeds iff every component has an advance; then component k is drawn at x = sum of the advances of components 0..k-1, y = 0, identity linear part, in list order; otherwise fails naming the first component without an advance, and the pen holds the components before it plus that component, which is drawn before its advance is looked up |
| ComponentLayout.LayoutStep | sources/build_opsz_glyphs.py:35-39 | one loop step: the next component goes at the running sum, and the sum grows by its advance |
| ComponentLayout.GlyphWidth | sources/build_opsz_glyphs.py:45-48 | the width is the sum of all component advances; fails naming the first component without an advance |
| ComponentLayout.WidthIsLastOffsetPlusAdvance | sources/build_opsz_glyphs.py:34-48 | the width loop and the pen agree: width = offset of the last component + its advance |
| ComponentLayout.SumAdvancesConcat | sources/build_opsz_glyphs.py:44-47 | the width of a concatenated component list is the sum of the parts' widths |
| ComponentLayout.LayoutAbuts | sources/build_opsz_glyphs.py:34-48 | the components sit side by side: the first at x = 0, each next one where the one before it ends (its offset plus its advance), and the summed width ends where the last one ends; an empty list is 0 wide |
| ComponentLayout.OffsetsMonotone | sources/build_opsz_glyphs.py:35-39 | with non-negative advances, later components never sit left of earlier ones |
| GlyphWrites.WrittenStep | sources/build_opsz_glyphs.py:51 | one more `writeGlyph` is one more map update on top of the previous run |
| GlyphWrites.WrittenAt | sources/build_opsz_glyphs.py:51 | with distinct names, every written glyph is present afterwards with the value written |
| GlyphWrites.WrittenElsewhere | sources/build_opsz_glyphs.py:51 | a name never written keeps its old glyph, or stays absent |
| GlyphWrites.WrittenKeys | sources/build_opsz_glyphs.py:51 | after a run, the names present are the old ones plus the written ones |
| GlyphWrites.WrittenPresent | sources/build_opsz_glyphs.py:51 | writing glyphs that are already stored with the same value changes nothing |
| GlyphWrites.DistinctCount | sources/build_opsz_glyphs.py:64-66 | a list without repetitions has as many distinct elements as entries |
| OpszGlyphs.GlyphSet.ReadGlyph | sources/build_opsz_glyphs.py:22-25 | returns the stored glyph iff the name is present, otherwise a KeyError naming it |
| OpszGlyphs.GlyphSet.WriteGlyph | sources/build_opsz_glyphs.py:51 | create or replace the glyph of that name; nothing else changes |
| OpszGlyphs.BaseAdvances | sources/build_opsz_glyphs.py:59-63 | the advance table has exactly the eleven base glyph names as keys, each mapped to that glyph's width |
| OpszGlyphs.TablePrefixComplete | sources/build_opsz_glyphs.py:59-63 | once all eleven base glyphs have been read, they are all present and the table is `BaseAdvances` |
| OpszGlyphs.ReadComponentAdvances | sources/build_opsz_glyphs.py:59-63 | succeeds iff all base glyphs are present, returning `BaseAdvances`; otherwise fails naming the first missing one in the order period, zero, ..., nine |
| OpszGlyphs.ComponentList | sources/build_opsz_glyphs.py:44 | the integer part's digit glyphs, then `period` at position NumDigits(intPart), then the fraction's digit glyphs; every component is a base glyph |
| OpszGlyphs.ComponentListOfLabel | sources/build_opsz_glyphs.py:44 | for a one-digit fraction, the list ends with `period` and that digit's glyph |
| OpszGlyphs.ComponentListHasAdvances | sources/build_opsz_glyphs.py:44-47 | once the base advances are known, every component of every label has an advance, so no KeyError can occur inside `createOPSZGlyph` |
| OpszGlyphs.ComponentListExample | sources/build_opsz_glyphs.py:44 | the label 10.1 is built from `one zero period one` |
| OpszGlyphs.LabelGlyphLayout | sources/build_opsz_glyphs.py:42-51 | the written glyph holds one component per name, in list order, on the baseline, the first at 0 and each next one where the previous ends; its width ends where the last component ends |
| OpszGlyphs.LabelGlyphExample | sources/build_opsz_glyphs.py:41-51 | with advances zero 500, period 200, one 300, label 10.1 is 1300 wide with components at x = 0, 300, 800, 1000 |
| OpszGlyphs.CreateOpszGlyph | sources/build_opsz_glyphs.py:41-51 | succeeds iff every component has an advance; then exactly one glyph is written, under `opsz.<i>_<f>`, with the summed width and the laid-out components; otherwise nothing changes and the first missing component is named |
| OpszGlyphs.OpszGlyphComponents | sources/build_opsz_glyphs.py:42-49 | the label glyph of (i, f) has one placement per entry of its component list, each naming that entry, in order |
| OpszGlyphs.OpszGlyphShape | sources/build_opsz_glyphs.py:42-49 | the label glyph of (i, f) holds exactly the component list, one placement per name: the digit glyphs of `str(i)`, then `period` at position NumDigits(i), then the digit glyphs of `str(f)` |
| OpszGlyphs.OpszGlyphWidth | sources/build_opsz_glyphs.py:42-49 | for a one-digit fraction the label is as wide as the digits of `str(i)`, the period and the fraction digit together |
| OpszGlyphs.CreateNextOpszGlyph | sources/build_opsz_glyphs.py:64-66 | one pass of the nested loop: the glyph set goes from the first k label writes to the first k + 1, k being the step of (intPart, fracPart) |
| OpszGlyphs.WriteOpszGlyphs | sources/build_opsz_glyphs.py:64-66 | with a complete advance table, the nested loop leaves the glyph set as the old one with all 1370 label writes applied in loop order |
| OpszGlyphs.OpszPairs | sources/build_opsz_glyphs.py:64-65 | the nested loops make (145 - 8) * 10 steps |
| OpszGlyphs.OpszPairAt | sources/build_opsz_glyphs.py:64-65 | step (intPart - 8) * 10 + fracPart visits (intPart, fracPart) |
| OpszGlyphs.OpszPairsCover | sources/build_opsz_glyphs.py:64-65 | a pair is visited iff 8 <= intPart <= 144 and 0 <= fracPart <= 9 |
| OpszGlyphs.OpszPairsOrdered | sources/build_opsz_glyphs.py:64-65 | later steps visit lexicographically larger pairs, intPart outermost |
| OpszGlyphs.OpszGlyphNamesDistinct | sources/build_opsz_glyphs.py:64-66 | two different steps write different glyph names |
| OpszGlyphs.OpszGlyphNameNotBase | sources/build_opsz_glyphs.py:27-28 | no generated name is a base glyph name, so generation never overwrites a component it reads |
| OpszGlyphs.OpszWrites | sources/build_opsz_glyphs.py:64-66 | the names written are, in order, the generated names `opsz.8_0` to `opsz.144_9` |
| OpszGlyphs.OpszWriteAt | sources/build_opsz_glyphs.py:64-66 | the write at step (intPart - 8) * 10 + fracPart is the name and glyph `createOPSZGlyph` makes for that pair |
| OpszGlyphs.OpszGlyphNamesDistinctAll | sources/build_opsz_glyphs.py:64-66 | the 1370 generated names are pairwise distinct |
| OpszGlyphs.OpszGlyphCount | sources/build_opsz_glyphs.py:64-66 | one source receives exactly 137 x 10 = 1370 distinct glyph names |
| OpszGlyphs.SameBaseAdvances | sources/build_opsz_glyphs.py:59-63 | glyph maps with the same base glyphs have the same advance table |
| OpszGlyphs.GeneratedKeepsOthers | sources/build_opsz_glyphs.py:64-66 | after generation the names present are the old names plus the 1370 labels; every non-label glyph keeps its value |
| OpszGlyphs.BaseNameNotGenerated | sources/build_opsz_glyphs.py:59-66 | no base glyph name is among the generated names |
| OpszGlyphs.GeneratedKeepsBase | sources/build_opsz_glyphs.py:59-66 | generation leaves the base glyphs, and so the advance table, unchanged |
| OpszGlyphs.GeneratedHasLabels | sources/build_opsz_glyphs.py:59-66 | after generation every label glyph is present and equal to the glyph built from the source's own base advances |
| OpszGlyphs.GeneratedSourceContents | sources/build_opsz_glyphs.py:59-66 | the contents of a generated source: all labels present and correct, base glyphs unchanged, other glyphs unchanged, nothing else added |
| OpszGlyphs.RegenerationIsIdempotent | sources/build_opsz_glyphs.py:64-66 | running generation over its own output changes nothing |
| OpszGlyphs.GenerationIsIdempotent | sources/build_opsz_glyphs.py:57-66 | a generated set still has all base glyphs, and generating it again gives it back unchanged |
| OpszGlyphs.GenerateSource | sources/build_opsz_glyphs.py:57-66 | succeeds iff all base glyphs are present; then the glyph set is the old one with the 1370 label writes applied in loop order; otherwise the set is unchanged and the first missing base glyph is named |
| SubstitutionRules.OpszRules | sources/build_opsz_glyphs.py:70-79 | one rule per visited pair |
| SubstitutionRules.OpszRuleLabel | sources/build_opsz_glyphs.py:73-78 | the rule of (i, f) has a name and a substituted glyph that both parse back to (i, f), substitutes the `underscore` placeholder, and has one `opsz` condition whose minimum is i units and f tenths (for f < 10) and whose maximum is 0.099 above it |
| SubstitutionRules.OpszRuleAt | sources/build_opsz_glyphs.py:71-79 | rule (intPart - 8) * 10 + fracPart is the rule of (intPart, fracPart) |
| SubstitutionRules.OpszRulesStep | sources/build_opsz_glyphs.py:79 | appending the next pair's rule extends the list built so far by one |
| SubstitutionRules.BuildRules | sources/build_opsz_glyphs.py:70-79 | the loop builds exactly `OpszRules`, in intPart-then-fracPart order |
| SubstitutionRules.OpszRuleShape | sources/build_opsz_glyphs.py:73-78 | rule k is named `opsz<i>_<f>` and has one condition set holding one `opsz` condition, from 1000i + 100f to 99 thousandths above it; it substitutes `underscore` with the label glyph `opsz.<i>_<f>`, which the sources receive |
| SubstitutionRules.ConditionMinimum | sources/build_opsz_glyphs.py:73-76 | rule k's minimum is 8000 + 100k thousandths, and its maximum is 99 above it |
| SubstitutionRules.RuleIntervalsOrdered | sources/build_opsz_glyphs.py:76 | later rules have strictly higher intervals; no two intervals overlap |
| SubstitutionRules.RuleIntervalsTile | sources/build_opsz_glyphs.py:76 | every axis value from 8.000 to 144.999, in whole thousandths, lies in exactly one rule's interval, that of rule value/100 - 80 |
| SubstitutionRules.OpszRuleCount | sources/build_opsz_glyphs.py:70-79 | exactly 1370 rules, with pairwise distinct names |
| Designspace.FirstMissingSameBase | sources/build_opsz_glyphs.py:59-63 | which base glyph is reported missing depends only on the base glyphs |
| Designspace.GenerateSourceContents | sources/build_opsz_glyphs.py:57-66 | one source: succeeds iff it has all base glyphs; then the set is `Generated` from what it held (every label added, every other glyph kept, nothing else added, and a set that already holds every label is left as it is); otherwise the set is unchanged and the first missing base glyph is named; base glyphs never change |
| Designspace.TargetContents | sources/build_opsz_glyphs.py:57-66 | a set brought to its target keeps its base glyphs and holds every label |
| Designspace.TargetReached | sources/build_opsz_glyphs.py:55-66 | generating a set that is still as it was, or already generated by an earlier source sharing it, gives the same target |
| Designspace.TargetHasBase | sources/build_opsz_glyphs.py:57-63 | a set at its target still has every base glyph |
| Designspace.GeneratedUpToAt | sources/build_opsz_glyphs.py:55 | before source i is processed, its set either still holds what it had or was already generated through an earlier source sharing it |
| Designspace.GeneratedUpToStep | sources/build_opsz_glyphs.py:55-66 | generating source i moves every source sharing its set, and no other, to its target: the generated prefix grows by one |
| Designspace.GeneratedUpToStop | sources/build_opsz_glyphs.py:55-63 | a source found lacking a base glyph was not reached earlier, and lacks the same first base glyph in what it held at the start |
| Designspace.GeneratedUpToBase | sources/build_opsz_glyphs.py:55-66 | after any prefix no source's base glyphs have changed, and every reached source is `Generated` from what it held and holds every label |
| Designspace.GenerateSourceAt | sources/build_opsz_glyphs.py:55-66 | one pass of the source loop: succeeds iff source i had all base glyphs, and the generated prefix then grows by one; otherwise nothing changes and the error names the first base glyph source i lacked |
| Designspace.GenerateSources | sources/build_opsz_glyphs.py:55-66 | the source loop succeeds iff every source had all base glyphs, and then every set is at its target; otherwise it stops at a source i that lacked a base glyph, naming the first one, with the prefix before i generated and all else untouched |
| Designspace.GenerateDocument | sources/build_opsz_glyphs.py:53-80 | succeeds iff every source has all base glyphs; then every source's set is `Generated` from what it held, holds every label, and the rules are exactly `OpszRules`, whatever they were before; base glyphs never change; on failure the rules are untouched and there is a first failing source i: the error is the first base glyph missing from what source i held, the sets of sources 0..i-1 are generated, and every other set is untouched |

## Left out

- Reading and writing files is not modelled. This covers `DesignSpaceDocument.fromfile`, `UFOWriter`, `getGlyphSet`, `writeContents`, `writeLayerContents` and `doc.write`. A document is given as a list of in-memory glyph sets and a rule list.
- A write failure on disk, and a malformed designspace document, are not modelled. Both come only from the file I/O left out above.
- Two sources with the same path: the script opens the same UFO twice, and the second open sees the first source's saved glyphs. The model instead lets two sources share one `GlyphSet` object; `GenerateDocument` is proved for that case too.
- The `print` progress lines are left out because they have no effect on the result.
- The command-line entry point is left out: the missing argument, the usage message and `sys.exit(1)`. `main` is modelled from its document on.
- A glyph keeps only its advance width and its outline, which is either contours or placed components. Other glyph attributes are not modelled, and neither is the glyph object's reference to its glyph set.
- `_readGlyph` loads the whole glyph. The model returns the stored glyph value.
- Advance widths are unbounded integers. UFO widths may also be floats, and floating-point widths are not modelled.
- SubstitutionRules.OpszRule: bounds are exact thousandths, not the floats `intPart + fracPart/10` and `+ .099`. The floats can differ from those values by rounding.
- SubstitutionRules.OpszRuleLabel: states the bounds in those exact thousandths, so "f tenths" and "0.099 above" are exact here and only approximate in the script's floats.
- SubstitutionRules.RuleIntervalsTile is weaker than the real axis: it covers only whole thousandths. On the real-valued axis, a value strictly between x.x99 and the next tenth (for example 8.0995) lies in no rule's interval.
- ComponentLayout.ComponentsToPen: the script hands the pen function to `writeGlyph`, which draws it when the glyph is saved. The model draws eagerly inside `CreateOpszGlyph`, after the width loop has found every advance, so that draw always completes. The partial pen of a failing draw is returned by `ComponentsToPen` but never reaches a glyph.
