/**
 * Per-source glyph generation of build_opsz_glyphs.py: the advance table read
 * from the base glyphs, `createOPSZGlyph`, and the nested loop of `main` that
 * writes one label glyph per (intPart, fracPart) pair into a source's glyph set.
 */
module OpszGlyphs {
  import opened Wrappers
  import opened Numerals
  import opened OpszNames
  import opened ComponentLayout
  import opened GlyphWrites

  const Period: string := "period"

  /** The base glyphs in the order `main` reads their advances: the period, then the ten digits. */
  const BaseGlyphOrder: seq<string> := [Period] + NumberToGlyphName

  /** `range(8, 145)` for the integer part and `range(10)` for the fractional digit. */
  const IntPartStart: nat := 8
  const IntPartEnd: nat := 145
  const FracPartEnd: nat := 10

  /** A glyph outline is either drawn directly or made of placed components. */
  datatype Outline = Contours | Components(placements: seq<Placement>)

  /** What the model keeps of a glyph: its advance width and its outline. */
  datatype Glyph = Glyph(width: int, outline: Outline)

  /** The glyph storage of one source: glyph name to glyph. */
  class GlyphSet {
    var glyphs: map<string, Glyph>

    constructor (glyphs: map<string, Glyph>)
      ensures this.glyphs == glyphs
    {
      this.glyphs := glyphs;
    }

    /** `_readGlyph`: the stored glyph, or a KeyError naming the absent glyph. */
    method ReadGlyph(name: string) returns (r: Result<Glyph, string>)
      ensures r.Ok? <==> name in glyphs
      ensures r.Ok? ==> r.value == glyphs[name]
      ensures r.Err? ==> r.error == name
    {
      if name in glyphs {
        return Ok(glyphs[name]);
      }
      return Err(name);
    }

    /** `writeGlyph`: create or replace the glyph of that name; nothing else changes. */
    method WriteGlyph(name: string, glyph: Glyph)
      modifies this
      ensures glyphs == old(glyphs)[name := glyph]
    {
      glyphs := glyphs[name := glyph];
    }
  }

  /** Every base glyph name is a key of `m` (a glyph set or an advance table). */
  predicate HasAllBase<V>(m: map<string, V>)
  {
    forall k :: 0 <= k < |BaseGlyphOrder| ==> BaseGlyphOrder[k] in m
  }

  /** The `componentAdvances` table built from a glyph set: each base glyph's width. */
  function BaseAdvances(glyphs: map<string, Glyph>): (advances: map<string, int>)
    requires HasAllBase(glyphs)
    ensures HasAllBase(advances)
    ensures forall n :: n in advances <==> n in BaseGlyphOrder
    ensures forall n :: n in advances ==> advances[n] == glyphs[n].width
  {
    map n | n in BaseGlyphOrder :: glyphs[n].width
  }

  /** `advances` holds the widths of the first `n` base glyphs, all present in `glyphs`, and nothing else. */
  predicate TablePrefix(advances: map<string, int>, glyphs: map<string, Glyph>, n: nat)
  {
    && (forall k :: 0 <= k < n && k < |BaseGlyphOrder| ==> BaseGlyphOrder[k] in glyphs && BaseGlyphOrder[k] in advances)
    && (forall key :: key in advances ==>
          && key in glyphs && advances[key] == glyphs[key].width
          && exists k :: 0 <= k < n && k < |BaseGlyphOrder| && BaseGlyphOrder[k] == key)
  }

  /** Reading the next base glyph extends the table by one entry. */
  lemma TablePrefixStep(advances: map<string, int>, glyphs: map<string, Glyph>, n: nat)
    requires TablePrefix(advances, glyphs, n) && n < |BaseGlyphOrder| && BaseGlyphOrder[n] in glyphs
    ensures TablePrefix(advances[BaseGlyphOrder[n] := glyphs[BaseGlyphOrder[n]].width], glyphs, n + 1)
  {
  }

  /** A table of all eleven base glyphs is the `componentAdvances` table. */
  lemma TablePrefixComplete(advances: map<string, int>, glyphs: map<string, Glyph>)
    requires TablePrefix(advances, glyphs, |BaseGlyphOrder|)
    ensures HasAllBase(glyphs)
    ensures advances == BaseAdvances(glyphs)
  {
    forall key | key in BaseGlyphOrder ensures key in advances {
      var k :| 0 <= k < |BaseGlyphOrder| && BaseGlyphOrder[k] == key;
    }
  }

  /**
   * The advance-table loop of `main`: `period` first, then the ten digits; the first
   * base glyph missing from the source stops it with a KeyError naming that glyph.
   */
  method ReadComponentAdvances(glyphSet: GlyphSet) returns (r: Result<map<string, int>, string>)
    ensures r.Ok? <==> HasAllBase(glyphSet.glyphs)
    ensures r.Ok? ==> r.value == BaseAdvances(glyphSet.glyphs)
    ensures r.Err? ==> FirstMissing(BaseGlyphOrder, glyphSet.glyphs, r.error)
  {
    var period := glyphSet.ReadGlyph(Period);
    if period.Err? {
      assert BaseGlyphOrder[0] == Period;
      return Err(period.error);
    }
    var advances := map[Period := period.value.width];
    assert TablePrefix(advances, glyphSet.glyphs, 1) by {
      assert BaseGlyphOrder[0] == Period;
      TablePrefixStep(map[], glyphSet.glyphs, 0);
    }
    for i := 0 to 10
      invariant TablePrefix(advances, glyphSet.glyphs, i + 1)
    {
      var name := NumberToGlyphName[i];
      assert BaseGlyphOrder[i + 1] == name;
      var glyph := glyphSet.ReadGlyph(name);
      if glyph.Err? {
        return Err(glyph.error);
      }
      TablePrefixStep(advances, glyphSet.glyphs, i + 1);
      advances := advances[name := glyph.value.width];
    }
    TablePrefixComplete(advances, glyphSet.glyphs);
    return Ok(advances);
  }

  /** The component list of `createOPSZGlyph`: the integer part's digits, the period, the fraction's digits. */
  function ComponentList(intPart: nat, fracPart: nat): (components: seq<string>)
    ensures |components| == NumDigits(intPart) + 1 + NumDigits(fracPart)
    ensures components[NumDigits(intPart)] == Period
    ensures forall k :: 0 <= k < |components| ==> components[k] in BaseGlyphOrder
  {
    GlyphNamesFromNumber(intPart) + [Period] + GlyphNamesFromNumber(fracPart)
  }

  /** For a single fractional digit the list ends with the period and that digit's glyph. */
  lemma ComponentListOfLabel(intPart: nat, fracPart: nat)
    requires fracPart < FracPartEnd
    ensures |ComponentList(intPart, fracPart)| == NumDigits(intPart) + 2
    ensures ComponentList(intPart, fracPart)
      == GlyphNamesFromNumber(intPart) + [Period, NumberToGlyphName[fracPart]]
  {
  }

  /** Every component of every label has an advance once the base advances are known. */
  lemma ComponentListHasAdvances(intPart: nat, fracPart: nat, advances: map<string, int>)
    requires HasAllBase(advances)
    ensures HasAdvances(ComponentList(intPart, fracPart), advances)
  {
  }

  /** The glyph `createOPSZGlyph` writes: the summed width, and the components laid out side by side. */
  function LabelGlyph(components: seq<string>, advances: map<string, int>): Glyph
    requires HasAdvances(components, advances)
  {
    Glyph(SumAdvances(components, advances), Components(Layout(components, advances)))
  }

  /**
   * A label glyph holds one component per name, in order, on the baseline, the first
   * at 0 and each next one where the one before it ends; its width ends where the
   * last one ends.
   */
  lemma LabelGlyphLayout(components: seq<string>, advances: map<string, int>)
    requires HasAdvances(components, advances)
    ensures var g := LabelGlyph(components, advances);
      && g.outline.Components? && |g.outline.placements| == |components|
      && (forall k :: 0 <= k < |components| ==>
            g.outline.placements[k].glyph == components[k] && g.outline.placements[k].transform.dy == 0)
      && (components != [] ==> g.outline.placements[0].transform.dx == 0)
      && (forall k :: 0 <= k < |components| - 1 ==>
            g.outline.placements[k + 1].transform.dx == g.outline.placements[k].transform.dx + advances[components[k]])
      && g.width == if components == [] then 0
         else g.outline.placements[|components| - 1].transform.dx + advances[components[|components| - 1]]
  {
    LayoutAbuts(components, advances);
  }

  /** The component list of the label 10.1. */
  lemma ComponentListExample()
    ensures ComponentList(10, 1) == ["one", "zero", "period", "one"]
  {
    assert DecimalDigits(10) == [1, 0];
  }

  /**
   * A worked label: with advances zero 500, period 200 and one 300, the label 10.1 is
   * "one zero period one", 1300 units wide, with components at x = 0, 300, 800, 1000.
   */
  lemma LabelGlyphExample()
    ensures var advances := map["zero" := 500, "period" := 200, "one" := 300];
      && HasAdvances(ComponentList(10, 1), advances)
      && LabelGlyph(ComponentList(10, 1), advances).width == 1300
      && Layout(ComponentList(10, 1), advances)
        == [Placement("one", Translation(0)), Placement("zero", Translation(300)),
            Placement("period", Translation(800)), Placement("one", Translation(1000))]
  {
    ComponentListExample();
    var advances := map["zero" := 500, "period" := 200, "one" := 300];
    var c1, c2, c3 := ["one"], ["one", "zero"], ["one", "zero", "period"];
    var components := ComponentList(10, 1);
    assert c1[..0] == [] && c2[..1] == c1 && c3[..2] == c2 && components[..3] == c3;
    assert SumAdvances(c1, advances) == 300;
    assert SumAdvances(c2, advances) == 800;
    assert SumAdvances(c3, advances) == 1000;
    assert SumAdvances(components, advances) == 1300;
    assert components[..0] == [] && components[..1] == c1 && components[..2] == c2;
    var placements := Layout(components, advances);
    assert placements[0] == Placement("one", Translation(0));
    assert placements[1] == Placement("zero", Translation(300));
    assert placements[2] == Placement("period", Translation(800));
    assert placements[3] == Placement("one", Translation(1000));
  }

  /** The label glyph of one (intPart, fracPart) pair, given a complete advance table. */
  function OpszGlyph(advances: map<string, int>, intPart: nat, fracPart: nat): Glyph
    requires HasAllBase(advances)
  {
    ComponentListHasAdvances(intPart, fracPart, advances);
    LabelGlyph(ComponentList(intPart, fracPart), advances)
  }

  /** The label glyph of (intPart, fracPart) holds exactly its component list, one placement per name, in order. */
  lemma OpszGlyphComponents(advances: map<string, int>, intPart: nat, fracPart: nat)
    requires HasAllBase(advances)
    ensures var g := OpszGlyph(advances, intPart, fracPart);
      && g.outline.Components?
      && |g.outline.placements| == |ComponentList(intPart, fracPart)|
      && forall k :: 0 <= k < |g.outline.placements| ==> g.outline.placements[k].glyph == ComponentList(intPart, fracPart)[k]
  {
    ComponentListHasAdvances(intPart, fracPart, advances);
    LabelGlyphLayout(ComponentList(intPart, fracPart), advances);
  }

  /** The label glyph of (intPart, fracPart) shows the digits of intPart, then the period, then the digits of fracPart. */
  lemma OpszGlyphShape(advances: map<string, int>, intPart: nat, fracPart: nat)
    requires HasAllBase(advances)
    ensures var g := OpszGlyph(advances, intPart, fracPart);
      && g.outline.Components?
      && |g.outline.placements| == NumDigits(intPart) + 1 + NumDigits(fracPart)
      && g.outline.placements[NumDigits(intPart)].glyph == Period
      && (forall k :: 0 <= k < NumDigits(intPart) ==> g.outline.placements[k].glyph == GlyphNamesFromNumber(intPart)[k])
      && (forall k :: 0 <= k < |g.outline.placements| ==> g.outline.placements[k].glyph == ComponentList(intPart, fracPart)[k])
  {
    OpszGlyphComponents(advances, intPart, fracPart);
  }

  /** For a single fractional digit the label is as wide as its digits and the period together. */
  lemma OpszGlyphWidth(advances: map<string, int>, intPart: nat, fracPart: nat)
    requires HasAllBase(advances) && fracPart < FracPartEnd
    ensures HasAdvances(GlyphNamesFromNumber(intPart), advances)
    ensures OpszGlyph(advances, intPart, fracPart).width
      == SumAdvances(GlyphNamesFromNumber(intPart), advances) + advances[Period] + advances[NumberToGlyphName[fracPart]]
  {
    ComponentListHasAdvances(intPart, fracPart, advances);
    ComponentListOfLabel(intPart, fracPart);
    var components := ComponentList(intPart, fracPart);
    var digits := GlyphNamesFromNumber(intPart);
    var tail := [Period, NumberToGlyphName[fracPart]];
    forall k | 0 <= k < |digits| ensures digits[k] in advances {
      assert components[k] == digits[k];
    }
    assert BaseGlyphOrder[0] == Period && BaseGlyphOrder[fracPart + 1] == NumberToGlyphName[fracPart];
    SumAdvancesConcat(digits, tail, advances);
    assert tail[..1] == [Period] && [Period][..0] == [];
    assert SumAdvances(tail, advances) == advances[Period] + advances[NumberToGlyphName[fracPart]];
  }

  /**
   * `createOPSZGlyph`: sum the advances, draw the components with `_componentsToPen`
   * and write the glyph under its `opsz.<int>_<frac>` name.
   */
  method CreateOpszGlyph(glyphSet: GlyphSet, advances: map<string, int>, intPart: nat, fracPart: nat)
    returns (r: Result<(), string>)
    modifies glyphSet
    ensures r.Ok? <==> HasAdvances(ComponentList(intPart, fracPart), advances)
    ensures r.Ok? ==> (glyphSet.glyphs
      == old(glyphSet.glyphs)[OpszGlyphName(intPart, fracPart) := LabelGlyph(ComponentList(intPart, fracPart), advances)])
    ensures r.Err? ==> glyphSet.glyphs == old(glyphSet.glyphs)
    ensures r.Err? ==> FirstMissing(ComponentList(intPart, fracPart), advances, r.error)
  {
    var glyphName := OpszGlyphName(intPart, fracPart);
    var components := ComponentList(intPart, fracPart);
    var width := GlyphWidth(components, advances);
    if width.Err? {
      return Err(width.error);
    }
    var pen, drawn := ComponentsToPen(components, advances);
    assert drawn.Ok?;
    glyphSet.WriteGlyph(glyphName, Glyph(width.value, Components(pen)));
    return Ok(());
  }

  /** The (intPart, fracPart) pairs in the order of `main`'s nested loops. */
  function OpszPairs(): (pairs: seq<(nat, nat)>)
    ensures |pairs| == (IntPartEnd - IntPartStart) * FracPartEnd
  {
    seq((IntPartEnd - IntPartStart) * FracPartEnd, k requires 0 <= k =>
      (IntPartStart + k / FracPartEnd, k % FracPartEnd))
  }

  /** The pair written at step `(intPart - 8) * 10 + fracPart` is (intPart, fracPart). */
  lemma OpszPairAt(intPart: nat, fracPart: nat)
    requires IntPartStart <= intPart < IntPartEnd && fracPart < FracPartEnd
    ensures (intPart - IntPartStart) * FracPartEnd + fracPart < |OpszPairs()|
    ensures OpszPairs()[(intPart - IntPartStart) * FracPartEnd + fracPart] == (intPart, fracPart)
  {
    var k := (intPart - IntPartStart) * FracPartEnd + fracPart;
    assert k / 10 == intPart - IntPartStart && k % 10 == fracPart;
  }

  /** The loops visit exactly the pairs of [8, 144] x [0, 9]. */
  lemma OpszPairsCover(p: (nat, nat))
    ensures p in OpszPairs() <==> IntPartStart <= p.0 < IntPartEnd && p.1 < FracPartEnd
  {
    if IntPartStart <= p.0 < IntPartEnd && p.1 < FracPartEnd {
      OpszPairAt(p.0, p.1);
    }
  }

  /** The loops go intPart-then-fracPart: the pairs are strictly increasing, hence distinct. */
  lemma OpszPairsOrdered(j: nat, k: nat)
    requires j < k < |OpszPairs()|
    ensures var (a, b) := (OpszPairs()[j], OpszPairs()[k]); a.0 < b.0 || (a.0 == b.0 && a.1 < b.1)
  {
    var a, b := OpszPairs()[j], OpszPairs()[k];
    if a.0 == b.0 {
      assert j / 10 == k / 10;
      assert j == 10 * (j / 10) + j % 10 && k == 10 * (k / 10) + k % 10;
    }
  }

  /** The glyph names written for pairs `j` and `k` differ when the steps differ. */
  lemma OpszGlyphNamesDistinct(j: nat, k: nat)
    requires j < |OpszPairs()| && k < |OpszPairs()| && j != k
    ensures OpszGlyphName(OpszPairs()[j].0, OpszPairs()[j].1) != OpszGlyphName(OpszPairs()[k].0, OpszPairs()[k].1)
  {
    if j < k { OpszPairsOrdered(j, k); } else { OpszPairsOrdered(k, j); }
    var a, b := OpszPairs()[j], OpszPairs()[k];
    if OpszGlyphName(a.0, a.1) == OpszGlyphName(b.0, b.1) {
      OpszGlyphNameInjective(a.0, a.1, b.0, b.1);
    }
  }

  /** A generated name is never a base glyph name: it is longer than all of them. */
  lemma OpszGlyphNameNotBase(intPart: nat, fracPart: nat)
    ensures OpszGlyphName(intPart, fracPart) !in BaseGlyphOrder
  {
    var name := OpszGlyphName(intPart, fracPart);
    assert 8 <= |name|;
    forall k | 0 <= k < |BaseGlyphOrder| ensures |BaseGlyphOrder[k]| < 8 {
    }
  }

  /** Every glyph name one source receives, in writing order: `opsz.8_0` through `opsz.144_9`. */
  function OpszGlyphNames(): (names: seq<string>)
    ensures |names| == |OpszPairs()|
  {
    var pairs := OpszPairs();
    seq(|pairs|, k requires 0 <= k < |pairs| => OpszGlyphName(pairs[k].0, pairs[k].1))
  }

  /** The `writeGlyph` calls of one source, in order: each pair's name and label glyph. */
  function OpszWrites(advances: map<string, int>): (writes: seq<(string, Glyph)>)
    requires HasAllBase(advances)
    ensures WrittenNames(writes) == OpszGlyphNames()
  {
    var pairs := OpszPairs();
    seq(|pairs|, k requires 0 <= k < |pairs| =>
      (OpszGlyphName(pairs[k].0, pairs[k].1), OpszGlyph(advances, pairs[k].0, pairs[k].1)))
  }

  /** What a source holds after generation: its glyphs with every label written over them, in loop order. */
  function Generated(glyphs: map<string, Glyph>): map<string, Glyph>
    requires HasAllBase(glyphs)
  {
    Written(glyphs, OpszWrites(BaseAdvances(glyphs)))
  }

  /** The write at step `(intPart - 8) * 10 + fracPart` is the one `createOPSZGlyph` makes for that pair. */
  lemma OpszWriteAt(advances: map<string, int>, intPart: nat, fracPart: nat)
    requires HasAllBase(advances)
    requires IntPartStart <= intPart < IntPartEnd && fracPart < FracPartEnd
    ensures (intPart - IntPartStart) * FracPartEnd + fracPart < |OpszWrites(advances)|
    ensures OpszWrites(advances)[(intPart - IntPartStart) * FracPartEnd + fracPart]
      == (OpszGlyphName(intPart, fracPart), LabelGlyph(ComponentList(intPart, fracPart), advances))
  {
    OpszPairAt(intPart, fracPart);
  }

  /** The generated names are pairwise distinct. */
  lemma OpszGlyphNamesDistinctAll()
    ensures Distinct(OpszGlyphNames())
  {
    forall i, j | 0 <= i < j < |OpszGlyphNames()| ensures OpszGlyphNames()[i] != OpszGlyphNames()[j] {
      OpszGlyphNamesDistinct(i, j);
    }
  }

  /** One source receives exactly 137 x 10 = 1370 distinct label glyphs. */
  lemma OpszGlyphCount()
    ensures |OpszGlyphNames()| == 1370
    ensures |set n | n in OpszGlyphNames()| == 1370
  {
    OpszGlyphNamesDistinctAll();
    DistinctCount(OpszGlyphNames());
  }

  /** The two glyph maps agree on every base glyph: both lack it, or both hold the same glyph. */
  predicate SameBaseGlyphs(a: map<string, Glyph>, b: map<string, Glyph>)
  {
    forall k :: 0 <= k < |BaseGlyphOrder| ==>
      && (BaseGlyphOrder[k] in a <==> BaseGlyphOrder[k] in b)
      && (BaseGlyphOrder[k] in a ==> a[BaseGlyphOrder[k]] == b[BaseGlyphOrder[k]])
  }

  /** Glyph maps with the same base glyphs have the same advance table. */
  lemma SameBaseAdvances(a: map<string, Glyph>, b: map<string, Glyph>)
    requires HasAllBase(a) && SameBaseGlyphs(a, b)
    ensures HasAllBase(b)
    ensures BaseAdvances(b) == BaseAdvances(a)
  {
    assert HasAllBase(b) by {
      forall n | n in BaseGlyphOrder ensures n in b {
        var j :| 0 <= j < |BaseGlyphOrder| && BaseGlyphOrder[j] == n;
      }
    }
    forall n | n in BaseGlyphOrder ensures BaseAdvances(b)[n] == BaseAdvances(a)[n] {
      var j :| 0 <= j < |BaseGlyphOrder| && BaseGlyphOrder[j] == n;
    }
  }

  /** A glyph set that holds every label glyph, drawn from its own base glyphs. */
  predicate HasOpszGlyphs(glyphs: map<string, Glyph>)
  {
    && HasAllBase(glyphs)
    && forall k :: 0 <= k < |OpszPairs()| ==>
      && OpszGlyphName(OpszPairs()[k].0, OpszPairs()[k].1) in glyphs
      && glyphs[OpszGlyphName(OpszPairs()[k].0, OpszPairs()[k].1)]
        == OpszGlyph(BaseAdvances(glyphs), OpszPairs()[k].0, OpszPairs()[k].1)
  }

  /** Generation touches only the label names: every other glyph keeps its key and its value. */
  lemma GeneratedKeepsOthers(glyphs: map<string, Glyph>)
    requires HasAllBase(glyphs)
    ensures var out := Written(glyphs, OpszWrites(BaseAdvances(glyphs)));
      && (forall key :: key in out <==> key in glyphs || key in OpszGlyphNames())
      && (forall key :: key in glyphs && key !in OpszGlyphNames() ==> out[key] == glyphs[key])
  {
    var writes := OpszWrites(BaseAdvances(glyphs));
    forall key ensures key in Written(glyphs, writes) <==> key in glyphs || key in OpszGlyphNames() {
      WrittenKeys(glyphs, writes, key);
    }
    forall key | key in glyphs && key !in OpszGlyphNames()
      ensures Written(glyphs, writes)[key] == glyphs[key]
    {
      WrittenElsewhere(glyphs, writes, key);
    }
  }

  /** No base glyph name is among the generated names. */
  lemma BaseNameNotGenerated(j: nat)
    requires j < |BaseGlyphOrder|
    ensures BaseGlyphOrder[j] !in OpszGlyphNames()
  {
    var names := OpszGlyphNames();
    if BaseGlyphOrder[j] in names {
      var k :| 0 <= k < |names| && names[k] == BaseGlyphOrder[j];
      OpszGlyphNameNotBase(OpszPairs()[k].0, OpszPairs()[k].1);
    }
  }

  /** Generation leaves the base glyphs, and so the advance table, as they were. */
  lemma GeneratedKeepsBase(glyphs: map<string, Glyph>)
    requires HasAllBase(glyphs)
    ensures var out := Written(glyphs, OpszWrites(BaseAdvances(glyphs)));
      && SameBaseGlyphs(glyphs, out)
      && HasAllBase(out)
      && BaseAdvances(out) == BaseAdvances(glyphs)
  {
    var writes := OpszWrites(BaseAdvances(glyphs));
    var out := Written(glyphs, writes);
    forall j | 0 <= j < |BaseGlyphOrder|
      ensures BaseGlyphOrder[j] in out && out[BaseGlyphOrder[j]] == glyphs[BaseGlyphOrder[j]]
    {
      BaseNameNotGenerated(j);
      WrittenElsewhere(glyphs, writes, BaseGlyphOrder[j]);
    }
    SameBaseAdvances(glyphs, out);
  }

  /** After generation every label glyph is present and drawn from the source's own base glyphs. */
  lemma GeneratedHasLabels(glyphs: map<string, Glyph>)
    requires HasAllBase(glyphs)
    ensures HasOpszGlyphs(Written(glyphs, OpszWrites(BaseAdvances(glyphs))))
  {
    var advances := BaseAdvances(glyphs);
    var writes := OpszWrites(advances);
    var out := Written(glyphs, writes);
    GeneratedKeepsBase(glyphs);
    OpszGlyphNamesDistinctAll();
    forall k | 0 <= k < |OpszPairs()|
      ensures OpszGlyphName(OpszPairs()[k].0, OpszPairs()[k].1) in out
      ensures out[OpszGlyphName(OpszPairs()[k].0, OpszPairs()[k].1)]
        == OpszGlyph(BaseAdvances(out), OpszPairs()[k].0, OpszPairs()[k].1)
    {
      WrittenAt(glyphs, writes, k);
      assert writes[k].0 == OpszGlyphName(OpszPairs()[k].0, OpszPairs()[k].1);
    }
  }

  /**
   * What generation leaves in a source: every label glyph, built from the source's
   * base glyphs, which are themselves untouched; every other glyph as it was; no
   * glyph other than the labels added.
   */
  lemma GeneratedSourceContents(glyphs: map<string, Glyph>)
    requires HasAllBase(glyphs)
    ensures var out := Written(glyphs, OpszWrites(BaseAdvances(glyphs)));
      && HasOpszGlyphs(out)
      && SameBaseGlyphs(glyphs, out)
      && BaseAdvances(out) == BaseAdvances(glyphs)
      && (forall key :: key in out <==> key in glyphs || key in OpszGlyphNames())
      && (forall key :: key in glyphs && key !in OpszGlyphNames() ==> out[key] == glyphs[key])
  {
    GeneratedKeepsOthers(glyphs);
    GeneratedKeepsBase(glyphs);
    GeneratedHasLabels(glyphs);
  }

  /** Running generation again over its own output writes identical glyphs: nothing changes. */
  lemma RegenerationIsIdempotent(glyphs: map<string, Glyph>)
    requires HasOpszGlyphs(glyphs)
    ensures Written(glyphs, OpszWrites(BaseAdvances(glyphs))) == glyphs
  {
    WrittenPresent(glyphs, OpszWrites(BaseAdvances(glyphs)));
  }

  /** Generation keeps every base glyph, and generating a second time changes nothing. */
  lemma GenerationIsIdempotent(glyphs: map<string, Glyph>)
    requires HasAllBase(glyphs)
    ensures HasAllBase(Generated(glyphs))
    ensures Generated(Generated(glyphs)) == Generated(glyphs)
  {
    GeneratedSourceContents(glyphs);
    RegenerationIsIdempotent(Generated(glyphs));
  }

  /** One pass of the nested loop of `main`: write the label of (intPart, fracPart), the next write in loop order. */
  method CreateNextOpszGlyph(glyphSet: GlyphSet, advances: map<string, int>, intPart: nat, fracPart: nat,
                             ghost before: map<string, Glyph>)
    requires HasAllBase(advances)
    requires IntPartStart <= intPart < IntPartEnd && fracPart < FracPartEnd
    requires glyphSet.glyphs == Written(before, OpszWrites(advances)[..(intPart - IntPartStart) * FracPartEnd + fracPart])
    modifies glyphSet
    ensures glyphSet.glyphs == Written(before, OpszWrites(advances)[..(intPart - IntPartStart) * FracPartEnd + fracPart + 1])
  {
    ComponentListHasAdvances(intPart, fracPart, advances);
    var created := CreateOpszGlyph(glyphSet, advances, intPart, fracPart);
    OpszWriteAt(advances, intPart, fracPart);
    WrittenStep(before, OpszWrites(advances), (intPart - IntPartStart) * FracPartEnd + fracPart);
  }

  /** The nested loop of `main` for one source: write every label glyph, in loop order. */
  method WriteOpszGlyphs(glyphSet: GlyphSet, advances: map<string, int>)
    requires HasAllBase(advances)
    modifies glyphSet
    ensures glyphSet.glyphs == Written(old(glyphSet.glyphs), OpszWrites(advances))
  {
    ghost var before := glyphSet.glyphs;
    for intPart := IntPartStart to IntPartEnd
      invariant glyphSet.glyphs == Written(before, OpszWrites(advances)[..(intPart - IntPartStart) * FracPartEnd])
    {
      ghost var done := (intPart - IntPartStart) * FracPartEnd;
      for fracPart := 0 to FracPartEnd
        invariant glyphSet.glyphs == Written(before, OpszWrites(advances)[..done + fracPart])
      {
        CreateNextOpszGlyph(glyphSet, advances, intPart, fracPart, before);
      }
    }
    assert OpszWrites(advances)[..(IntPartEnd - IntPartStart) * FracPartEnd] == OpszWrites(advances);
  }

  /**
   * The per-source loop of `main`: read the advance table, then write one label glyph
   * per pair. A missing base glyph aborts before anything is written.
   */
  method GenerateSource(glyphSet: GlyphSet) returns (r: Result<(), string>)
    modifies glyphSet
    ensures r.Ok? <==> HasAllBase(old(glyphSet.glyphs))
    ensures r.Ok? ==> (glyphSet.glyphs == Written(old(glyphSet.glyphs), OpszWrites(BaseAdvances(old(glyphSet.glyphs)))))
    ensures r.Err? ==> glyphSet.glyphs == old(glyphSet.glyphs)
    ensures r.Err? ==> FirstMissing(BaseGlyphOrder, old(glyphSet.glyphs), r.error)
  {
    var table := ReadComponentAdvances(glyphSet);
    if table.Err? {
      return Err(table.error);
    }
    WriteOpszGlyphs(glyphSet, table.value);
    return Ok(());
  }
}
