/**
 * The two name formats of build_opsz_glyphs.py: the generated glyph name
 * `opsz.<int>_<frac>` (`opszGlyphName`) and the rule name `opsz<int>_<frac>`,
 * with a parser that reads either back.
 */
module OpszNames {
  import opened Wrappers
  import opened Numerals

  const GlyphPrefix: string := "opsz."
  const RulePrefix: string := "opsz"

  /** `<prefix><intPart>_<fracPart>`, both parts written as Python's `str` writes them. */
  function LabelName(prefix: string, intPart: nat, fracPart: nat): string
  {
    prefix + DecimalString(intPart) + "_" + DecimalString(fracPart)
  }

  /** `opszGlyphName`: the name of the generated label glyph. */
  function OpszGlyphName(intPart: nat, fracPart: nat): (name: string)
    ensures |name| == |GlyphPrefix| + NumDigits(intPart) + 1 + NumDigits(fracPart)
    ensures name[..|GlyphPrefix|] == GlyphPrefix
  {
    LabelName(GlyphPrefix, intPart, fracPart)
  }

  /** The name of the substitution rule for one label. */
  function OpszRuleName(intPart: nat, fracPart: nat): (name: string)
    ensures |name| == |RulePrefix| + NumDigits(intPart) + 1 + NumDigits(fracPart)
    ensures name[..|RulePrefix|] == RulePrefix
  {
    LabelName(RulePrefix, intPart, fracPart)
  }

  /** A character absent from `a` is first found just after `a`. */
  lemma IndexOfAfter(a: string, c: char, b: string)
    requires c !in a
    ensures IndexOf(a + [c] + b, c) == Some(|a|)
  {
    var s := a + [c] + b;
    var r := IndexOf(s, c);
    assert s[|a|] == c;
    assert s[..|a|] == a;
  }

  /** Python's `int(s)` restricted to strings of decimal digits. */
  function ParseDecimal(s: string): (r: Option<nat>)
    ensures r.Some? <==> 1 <= |s| && forall k :: 0 <= k < |s| ==> '0' <= s[k] <= '9'
  {
    if 1 <= |s| && forall k :: 0 <= k < |s| ==> '0' <= s[k] <= '9' then
      Some(DigitsValue(seq(|s|, k requires 0 <= k < |s| => CharDigit(s[k]))))
    else
      None
  }

  /** Reads `<prefix><int>_<frac>` back into its two numbers; None for anything else. */
  function ParseLabelName(prefix: string, s: string): Option<(nat, nat)>
  {
    if |s| < |prefix| || s[..|prefix|] != prefix then None
    else
      var rest := s[|prefix|..];
      match IndexOf(rest, '_')
      case None => None
      case Some(u) =>
        match (ParseDecimal(rest[..u]), ParseDecimal(rest[u + 1..]))
        case (Some(i), Some(f)) => Some((i, f))
        case _ => None
  }

  /** `ParseDecimal` inverts `str`. */
  lemma ParseDecimalString(n: nat)
    ensures ParseDecimal(DecimalString(n)) == Some(n)
  {
    var s := DecimalString(n);
    var ds := DecimalDigits(n);
    assert seq(|s|, k requires 0 <= k < |s| => CharDigit(s[k])) == ds;
  }

  /** A label built from two decimal strings parses back to their values. */
  lemma ParseLabelNameOf(prefix: string, a: string, b: string)
    requires ParseDecimal(a).Some? && ParseDecimal(b).Some?
    ensures ParseLabelName(prefix, prefix + a + "_" + b) == Some((ParseDecimal(a).value, ParseDecimal(b).value))
  {
    var s := prefix + a + "_" + b;
    assert s[..|prefix|] == prefix;
    var rest := s[|prefix|..];
    assert rest == a + "_" + b;
    assert '_' !in a by {
      forall k | 0 <= k < |a| ensures a[k] != '_' {
        assert '0' <= a[k] <= '9';
      }
    }
    IndexOfAfter(a, '_', b);
    assert rest[..|a|] == a && rest[|a| + 1..] == b;
  }

  /** Round trip: a label name parses back to the two numbers it was made from. */
  lemma ParseLabelNameRoundTrip(prefix: string, intPart: nat, fracPart: nat)
    ensures ParseLabelName(prefix, LabelName(prefix, intPart, fracPart)) == Some((intPart, fracPart))
  {
    ParseDecimalString(intPart);
    ParseDecimalString(fracPart);
    ParseLabelNameOf(prefix, DecimalString(intPart), DecimalString(fracPart));
  }

  /** `opszGlyphName` is injective: different labels never share a glyph name. */
  lemma OpszGlyphNameInjective(i1: nat, f1: nat, i2: nat, f2: nat)
    requires OpszGlyphName(i1, f1) == OpszGlyphName(i2, f2)
    ensures i1 == i2 && f1 == f2
  {
    ParseLabelNameRoundTrip(GlyphPrefix, i1, f1);
    ParseLabelNameRoundTrip(GlyphPrefix, i2, f2);
  }

  /** Rule names are injective in the same way. */
  lemma OpszRuleNameInjective(i1: nat, f1: nat, i2: nat, f2: nat)
    requires OpszRuleName(i1, f1) == OpszRuleName(i2, f2)
    ensures i1 == i2 && f1 == f2
  {
    ParseLabelNameRoundTrip(RulePrefix, i1, f1);
    ParseLabelNameRoundTrip(RulePrefix, i2, f2);
  }

  /** The end points of the generated range, spelled out. */
  lemma OpszGlyphNameExamples()
    ensures OpszGlyphName(8, 0) == "opsz.8_0"
    ensures OpszGlyphName(144, 9) == "opsz.144_9"
  {
    assert DecimalDigits(144) == [1, 4, 4];
  }
}
