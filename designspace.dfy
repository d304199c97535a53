/**
 * `main` of build_opsz_glyphs.py over an in-memory designspace document: generate
 * the label glyphs in every source, then replace the document's rules with the
 * generated ones. Loading and writing the document and the UFO files is not modelled.
 */
module Designspace {
  import opened Wrappers
  import opened ComponentLayout
  import opened OpszGlyphs
  import opened SubstitutionRules

  /** The parts of a designspace document that `main` uses: its sources' glyph sets and its rules. */
  class DesignSpaceDocument {
    const sources: seq<GlyphSet>
    var rules: seq<Rule>

    constructor (sources: seq<GlyphSet>, rules: seq<Rule>)
      ensures this.sources == sources && this.rules == rules
    {
      this.sources := sources;
      this.rules := rules;
    }
  }

  /** Which base glyph is missing first depends only on the base glyphs. */
  lemma FirstMissingSameBase(a: map<string, Glyph>, b: map<string, Glyph>, name: string)
    requires SameBaseGlyphs(a, b) && FirstMissing(BaseGlyphOrder, a, name)
    ensures FirstMissing(BaseGlyphOrder, b, name)
  {
    var k :| 0 <= k < |BaseGlyphOrder| && BaseGlyphOrder[k] == name && name !in a
      && forall j :: 0 <= j < k ==> BaseGlyphOrder[j] in a;
    assert forall j :: 0 <= j < k ==> BaseGlyphOrder[j] in b;
  }

  /**
   * One source of `main`: `GenerateSource`, with its result restated as the contents
   * of the new glyph set. On success the glyph set is `Generated` from what it held:
   * every label glyph added, drawn from the set's own base glyphs, every other glyph
   * kept, and nothing else added. Generating an already generated set changes nothing.
   * On failure nothing is written.
   */
  method GenerateSourceContents(glyphSet: GlyphSet) returns (r: Result<(), string>)
    modifies glyphSet
    ensures r.Ok? <==> HasAllBase(old(glyphSet.glyphs))
    ensures r.Ok? ==> glyphSet.glyphs == Generated(old(glyphSet.glyphs))
    ensures r.Ok? ==> HasOpszGlyphs(glyphSet.glyphs)
    ensures r.Ok? ==> forall key :: key in glyphSet.glyphs <==> key in old(glyphSet.glyphs) || key in OpszGlyphNames()
    ensures r.Ok? ==> forall key :: key in old(glyphSet.glyphs) && key !in OpszGlyphNames() ==>
      glyphSet.glyphs[key] == old(glyphSet.glyphs)[key]
    ensures r.Ok? && HasOpszGlyphs(old(glyphSet.glyphs)) ==> glyphSet.glyphs == old(glyphSet.glyphs)
    ensures SameBaseGlyphs(old(glyphSet.glyphs), glyphSet.glyphs)
    ensures r.Err? ==> glyphSet.glyphs == old(glyphSet.glyphs)
    ensures r.Err? ==> FirstMissing(BaseGlyphOrder, old(glyphSet.glyphs), r.error)
  {
    ghost var before := glyphSet.glyphs;
    r := GenerateSource(glyphSet);
    if r.Ok? {
      GeneratedSourceContents(before);
      if HasOpszGlyphs(before) {
        RegenerationIsIdempotent(before);
      }
    }
  }

  /** The glyphs each source holds, in source order. */
  function Contents(sources: seq<GlyphSet>): (contents: seq<map<string, Glyph>>)
    reads sources
    ensures |contents| == |sources|
    ensures forall k :: 0 <= k < |sources| ==> contents[k] == sources[k].glyphs
  {
    seq(|sources|, k requires 0 <= k < |sources| reads sources => sources[k].glyphs)
  }

  /** Sources that share one glyph set hold the same glyphs. */
  predicate SharedAlike(sources: seq<GlyphSet>, contents: seq<map<string, Glyph>>)
  {
    && |contents| == |sources|
    && forall j, k :: 0 <= j < |sources| && 0 <= k < |sources| && sources[j] == sources[k] ==> contents[j] == contents[k]
  }

  /** What a glyph set becomes when `main` reaches it: `Generated` when it has every base glyph. */
  function Target(glyphs: map<string, Glyph>): map<string, Glyph>
  {
    if HasAllBase(glyphs) then Generated(glyphs) else glyphs
  }

  /** The target of each source's glyphs. */
  function Targets(contents: seq<map<string, Glyph>>): (targets: seq<map<string, Glyph>>)
    ensures |targets| == |contents|
    ensures forall k :: 0 <= k < |contents| ==> targets[k] == Target(contents[k])
  {
    seq(|contents|, k requires 0 <= k < |contents| => Target(contents[k]))
  }

  /** A target keeps the base glyphs and holds every label glyph. */
  lemma TargetContents(glyphs: map<string, Glyph>)
    requires HasAllBase(glyphs)
    ensures HasAllBase(Target(glyphs)) && HasOpszGlyphs(Target(glyphs))
    ensures SameBaseGlyphs(glyphs, Target(glyphs))
  {
    GeneratedSourceContents(glyphs);
  }

  /** Generating a glyph set that is still as it was, or already at its target, gives the target. */
  lemma TargetReached(glyphs: map<string, Glyph>, current: map<string, Glyph>)
    requires HasAllBase(current)
    requires current == glyphs || (HasAllBase(glyphs) && current == Target(glyphs))
    ensures Generated(current) == Target(glyphs)
  {
    if current != glyphs {
      GenerationIsIdempotent(glyphs);
    }
  }

  /** A glyph set at its target has every base glyph. */
  lemma TargetHasBase(glyphs: map<string, Glyph>)
    requires HasAllBase(glyphs)
    ensures HasAllBase(Target(glyphs))
  {
    GenerationIsIdempotent(glyphs);
  }

  /**
   * The state of the sources after the first `i` were generated, from `before` to
   * `after`, where `targets[k]` is what source `k` becomes: the first `i` had every
   * base glyph; a glyph set reached by one of them is at its target; every other
   * glyph set is untouched.
   */
  predicate GeneratedUpTo(sources: seq<GlyphSet>, before: seq<map<string, Glyph>>, targets: seq<map<string, Glyph>>,
                          after: seq<map<string, Glyph>>, i: nat)
  {
    && |before| == |sources| && |targets| == |sources| && |after| == |sources| && i <= |sources|
    && (forall k :: 0 <= k < i ==> HasAllBase(before[k]))
    && (forall k :: 0 <= k < |sources| && sources[k] in sources[..i] ==> HasAllBase(before[k]) && after[k] == targets[k])
    && (forall k :: 0 <= k < |sources| && sources[k] !in sources[..i] ==> after[k] == before[k])
  }

  /** Source `i` still holds what it had, or has already reached its target. */
  lemma GeneratedUpToAt(sources: seq<GlyphSet>, before: seq<map<string, Glyph>>, targets: seq<map<string, Glyph>>,
                        mid: seq<map<string, Glyph>>, i: nat)
    requires GeneratedUpTo(sources, before, targets, mid, i) && i < |sources|
    ensures mid[i] == before[i] || (HasAllBase(before[i]) && mid[i] == targets[i])
  {
  }

  /** Bringing source `i`'s glyph set to its target extends the generated prefix by one. */
  lemma GeneratedUpToStep(sources: seq<GlyphSet>, before: seq<map<string, Glyph>>, targets: seq<map<string, Glyph>>,
                          mid: seq<map<string, Glyph>>, after: seq<map<string, Glyph>>, i: nat)
    requires SharedAlike(sources, before) && SharedAlike(sources, targets)
    requires GeneratedUpTo(sources, before, targets, mid, i) && i < |sources|
    requires HasAllBase(mid[i]) && |after| == |sources|
    requires forall k :: 0 <= k < |sources| && sources[k] == sources[i] ==> after[k] == targets[i]
    requires forall k :: 0 <= k < |sources| && sources[k] != sources[i] ==> after[k] == mid[k]
    ensures GeneratedUpTo(sources, before, targets, after, i + 1)
  {
  }

  /** A source that lacks a base glyph was never reached before, so it fails on the glyphs it had at the start. */
  lemma GeneratedUpToStop(sources: seq<GlyphSet>, before: seq<map<string, Glyph>>, targets: seq<map<string, Glyph>>,
                          mid: seq<map<string, Glyph>>, i: nat, name: string)
    requires GeneratedUpTo(sources, before, targets, mid, i) && i < |sources|
    requires HasAllBase(before[i]) ==> HasAllBase(targets[i])
    requires FirstMissing(BaseGlyphOrder, mid[i], name)
    ensures sources[i] !in sources[..i]
    ensures FirstMissing(BaseGlyphOrder, before[i], name)
  {
  }

  /** Generation never changes a base glyph, and a glyph set at its target holds every label glyph. */
  lemma GeneratedUpToBase(sources: seq<GlyphSet>, before: seq<map<string, Glyph>>, after: seq<map<string, Glyph>>, i: nat)
    requires GeneratedUpTo(sources, before, Targets(before), after, i)
    ensures forall k :: 0 <= k < |sources| ==> SameBaseGlyphs(before[k], after[k])
    ensures forall k :: 0 <= k < |sources| && sources[k] in sources[..i] ==>
      HasOpszGlyphs(after[k]) && after[k] == Generated(before[k])
  {
    forall k | 0 <= k < |sources|
      ensures SameBaseGlyphs(before[k], after[k])
      ensures sources[k] in sources[..i] ==> HasOpszGlyphs(after[k]) && after[k] == Generated(before[k])
    {
      if sources[k] in sources[..i] {
        TargetContents(before[k]);
      }
    }
  }

  /**
   * One pass of the loop of `main`: generate source `i`. It succeeds exactly when
   * that source's glyph set has every base glyph, and the generated prefix then
   * grows by one; otherwise nothing changes and the error names the first base
   * glyph the source lacked from the start.
   */
  method GenerateSourceAt(sources: seq<GlyphSet>, i: nat, ghost before: seq<map<string, Glyph>>,
                          ghost targets: seq<map<string, Glyph>>) returns (r: Result<(), string>)
    requires SharedAlike(sources, before) && SharedAlike(sources, targets)
    requires GeneratedUpTo(sources, before, targets, Contents(sources), i) && i < |sources|
    requires targets[i] == Target(before[i])
    modifies sources[i]
    ensures r.Ok? <==> HasAllBase(before[i])
    ensures r.Ok? ==> GeneratedUpTo(sources, before, targets, Contents(sources), i + 1)
    ensures r.Err? ==> GeneratedUpTo(sources, before, targets, Contents(sources), i)
    ensures r.Err? ==> FirstMissing(BaseGlyphOrder, before[i], r.error)
  {
    ghost var mid := Contents(sources);
    r := GenerateSourceContents(sources[i]);
    GeneratedUpToAt(sources, before, targets, mid, i);
    if r.Err? {
      if HasAllBase(before[i]) {
        TargetHasBase(before[i]);
      }
      GeneratedUpToStop(sources, before, targets, mid, i, r.error);
      return;
    }
    TargetReached(before[i], mid[i]);
    GeneratedUpToStep(sources, before, targets, mid, Contents(sources), i);
  }

  /**
   * The loop of `main` over the sources, in order. It succeeds exactly when every
   * source has every base glyph, and then every glyph set is `Generated` from what it
   * held. Otherwise it stops at the first source `i` missing a base glyph, naming the
   * first one missing, with the glyph sets of `sources[..i]` at their targets and every
   * other one untouched. No base glyph changes either way.
   */
  method GenerateSources(sources: seq<GlyphSet>) returns (r: Result<(), string>)
    modifies sources
    ensures r.Ok? <==> forall k :: 0 <= k < |sources| ==> HasAllBase(old(sources[k].glyphs))
    ensures r.Ok? ==> GeneratedUpTo(sources, old(Contents(sources)), Targets(old(Contents(sources))), Contents(sources), |sources|)
    ensures r.Ok? ==> forall k :: 0 <= k < |sources| ==>
      sources[k].glyphs == Generated(old(sources[k].glyphs)) && HasOpszGlyphs(sources[k].glyphs)
    ensures forall k :: 0 <= k < |sources| ==> SameBaseGlyphs(old(sources[k].glyphs), sources[k].glyphs)
    ensures r.Err? ==> exists i ::
      && 0 <= i < |sources|
      && GeneratedUpTo(sources, old(Contents(sources)), Targets(old(Contents(sources))), Contents(sources), i)
      && FirstMissing(BaseGlyphOrder, old(sources[i].glyphs), r.error)
  {
    ghost var before := Contents(sources);
    ghost var targets := Targets(before);
    assert SharedAlike(sources, before) && SharedAlike(sources, targets);
    for i := 0 to |sources|
      invariant GeneratedUpTo(sources, before, targets, Contents(sources), i)
    {
      r := GenerateSourceAt(sources, i, before, targets);
      if r.Err? {
        GeneratedUpToBase(sources, before, Contents(sources), i);
        return;
      }
    }
    assert sources[..|sources|] == sources;
    GeneratedUpToBase(sources, before, Contents(sources), |sources|);
    return Ok(());
  }

  /**
   * `main`: every source in order, then the rules. On success every source has gone
   * from the glyphs it held to their `Generated` form (a glyph set shared by several
   * sources ends up generated once, as regenerating changes nothing), and the rules
   * are exactly the generated ones, whatever rules the document had before. A source
   * missing a base glyph stops the run at the first such source `i`, naming its first
   * missing base glyph: the glyph sets of `sources[..i]` are generated, every other
   * one is untouched, and so are the rules.
   */
  method GenerateDocument(doc: DesignSpaceDocument) returns (r: Result<(), string>)
    modifies doc, doc.sources
    ensures r.Ok? <==> forall k :: 0 <= k < |doc.sources| ==> HasAllBase(old(doc.sources[k].glyphs))
    ensures r.Ok? ==> doc.rules == OpszRules()
    ensures r.Ok? ==> forall k :: 0 <= k < |doc.sources| ==>
      && HasAllBase(old(doc.sources[k].glyphs))
      && doc.sources[k].glyphs == Generated(old(doc.sources[k].glyphs))
      && HasOpszGlyphs(doc.sources[k].glyphs)
    ensures forall k :: 0 <= k < |doc.sources| ==> SameBaseGlyphs(old(doc.sources[k].glyphs), doc.sources[k].glyphs)
    ensures r.Err? ==> doc.rules == old(doc.rules)
    ensures r.Err? ==> exists i ::
      && 0 <= i < |doc.sources|
      && GeneratedUpTo(doc.sources, old(Contents(doc.sources)), Targets(old(Contents(doc.sources))), Contents(doc.sources), i)
      && FirstMissing(BaseGlyphOrder, old(doc.sources[i].glyphs), r.error)
  {
    var sources := doc.sources;
    r := GenerateSources(sources);
    if r.Err? {
      return;
    }
    var rules := BuildRules();
    doc.rules := rules;
  }
}
