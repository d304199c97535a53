/**
 * The horizontal layout accumulator of build_opsz_glyphs.py: `_componentsToPen`,
 * which draws each component at the running sum of the advances before it, and
 * the width loop of `createOPSZGlyph`, which sums all the advances.
 * The pen is modelled as the sequence of placements it receives.
 */
module ComponentLayout {
  import opened Wrappers

  /** An affine transform `(xx, xy, yx, yy, dx, dy)` as passed to `pen.addComponent`. */
  datatype Transform = Transform(xx: int, xy: int, yx: int, yy: int, dx: int, dy: int)

  /** One `addComponent` call: the referenced glyph and its placement. */
  datatype Placement = Placement(glyph: string, transform: Transform)

  /** `(1, 0, 0, 1, x, 0)`: identity linear part, moved right by `x`. */
  function Translation(x: int): Transform
  {
    Transform(1, 0, 0, 1, x, 0)
  }

  /** Every component has an entry in the advance table. */
  predicate HasAdvances(components: seq<string>, advances: map<string, int>)
  {
    forall k :: 0 <= k < |components| ==> components[k] in advances
  }

  /** `name` is the first of `names` that `m` has no entry for: where a lookup loop raises KeyError. */
  predicate FirstMissing<V>(names: seq<string>, m: map<string, V>, name: string)
  {
    exists k :: 0 <= k < |names| && names[k] == name && name !in m
      && forall j :: 0 <= j < k ==> names[j] in m
  }

  /** The sum of the advances of `components`. */
  function SumAdvances(components: seq<string>, advances: map<string, int>): int
    requires HasAdvances(components, advances)
  {
    if components == [] then 0
    else SumAdvances(components[..|components| - 1], advances) + advances[components[|components| - 1]]
  }

  /** What `_componentsToPen` draws: component `k` at the sum of the advances of components `0..k-1`. */
  function Layout(components: seq<string>, advances: map<string, int>): (placements: seq<Placement>)
    requires HasAdvances(components, advances)
  {
    seq(|components|, k requires 0 <= k < |components| =>
      Placement(components[k], Translation(SumAdvances(components[..k], advances))))
  }

  /**
   * `_componentsToPen`: one placement per component, in list order. Each component is
   * drawn before its advance is looked up, so when an advance is missing the pen has
   * already received that component, and the KeyError names it.
   */
  method ComponentsToPen(components: seq<string>, advances: map<string, int>)
    returns (pen: seq<Placement>, r: Result<(), string>)
    ensures r.Ok? <==> HasAdvances(components, advances)
    ensures r.Ok? ==> |pen| == |components|
    ensures r.Ok? ==> forall k :: 0 <= k < |components| ==>
      && pen[k].glyph == components[k]
      && pen[k].transform == Translation(SumAdvances(components[..k], advances))
    ensures r.Ok? ==> pen == Layout(components, advances)
    ensures r.Err? ==> FirstMissing(components, advances, r.error)
    ensures r.Err? ==> exists k ::
      && 0 <= k < |components| && components[k] == r.error
      && HasAdvances(components[..k], advances)
      && pen == Layout(components[..k], advances) + [Placement(r.error, Translation(SumAdvances(components[..k], advances)))]
  {
    pen := [];
    var advance := 0;
    var i := 0;
    while i < |components|
      invariant 0 <= i <= |components|
      invariant HasAdvances(components[..i], advances)
      invariant advance == SumAdvances(components[..i], advances)
      invariant pen == Layout(components[..i], advances)
    {
      var name := components[i];
      pen := pen + [Placement(name, Translation(advance))];
      if name !in advances {
        return pen, Err(name);
      }
      LayoutStep(components, advances, i);
      advance := advance + advances[name];
      i := i + 1;
    }
    assert components[..i] == components;
    return pen, Ok(());
  }

  /** One more step of the accumulator: the next component goes at the sum so far. */
  lemma LayoutStep(components: seq<string>, advances: map<string, int>, i: nat)
    requires i < |components| && HasAdvances(components[..i + 1], advances)
    ensures HasAdvances(components[..i], advances)
    ensures SumAdvances(components[..i + 1], advances) == SumAdvances(components[..i], advances) + advances[components[i]]
    ensures Layout(components[..i + 1], advances)
      == Layout(components[..i], advances) + [Placement(components[i], Translation(SumAdvances(components[..i], advances)))]
  {
    var p, q := components[..i], components[..i + 1];
    assert q[..i] == p;
    forall k | 0 <= k < i ensures q[..k] == p[..k] {
    }
  }

  /** The width loop of `createOPSZGlyph`: the sum of all the component advances. */
  method GlyphWidth(components: seq<string>, advances: map<string, int>) returns (r: Result<int, string>)
    ensures r.Ok? <==> HasAdvances(components, advances)
    ensures r.Ok? ==> r.value == SumAdvances(components, advances)
    ensures r.Err? ==> FirstMissing(components, advances, r.error)
  {
    var advance := 0;
    for i := 0 to |components|
      invariant HasAdvances(components[..i], advances)
      invariant advance == SumAdvances(components[..i], advances)
    {
      var name := components[i];
      if name !in advances {
        return Err(name);
      }
      assert components[..i + 1][..i] == components[..i];
      advance := advance + advances[name];
    }
    assert components[..|components|] == components;
    return Ok(advance);
  }

  /** The width loop and the pen agree: the width is the last offset plus the last advance. */
  lemma WidthIsLastOffsetPlusAdvance(components: seq<string>, advances: map<string, int>)
    requires HasAdvances(components, advances) && 1 <= |components|
    ensures SumAdvances(components, advances)
      == Layout(components, advances)[|components| - 1].transform.dx + advances[components[|components| - 1]]
  {
  }

  /**
   * Side by side: the first component sits at 0, each next one starts where the one
   * before it ends, and the summed width ends where the last one ends.
   */
  lemma LayoutAbuts(components: seq<string>, advances: map<string, int>)
    requires HasAdvances(components, advances)
    ensures components == [] ==> SumAdvances(components, advances) == 0
    ensures components != [] ==> Layout(components, advances)[0].transform.dx == 0
    ensures forall k :: 0 <= k < |components| - 1 ==>
      Layout(components, advances)[k + 1].transform.dx == Layout(components, advances)[k].transform.dx + advances[components[k]]
    ensures components != [] ==>
      SumAdvances(components, advances)
        == Layout(components, advances)[|components| - 1].transform.dx + advances[components[|components| - 1]]
  {
    assert components[..|components|] == components;
    forall k | 0 <= k < |components| - 1
      ensures SumAdvances(components[..k + 1], advances) == SumAdvances(components[..k], advances) + advances[components[k]]
    {
      assert components[..k + 1][..k] == components[..k];
    }
  }

  /** The sum over a concatenation is the sum of the sums. */
  lemma {:induction false} SumAdvancesConcat(a: seq<string>, b: seq<string>, advances: map<string, int>)
    requires HasAdvances(a, advances) && HasAdvances(b, advances)
    ensures HasAdvances(a + b, advances)
    ensures SumAdvances(a + b, advances) == SumAdvances(a, advances) + SumAdvances(b, advances)
  {
    if b != [] {
      var b' := b[..|b| - 1];
      SumAdvancesConcat(a, b', advances);
      assert (a + b)[..|a + b| - 1] == a + b';
      assert (a + b)[|a + b| - 1] == b[|b| - 1];
      assert SumAdvances(b, advances) == SumAdvances(b', advances) + advances[b[|b| - 1]];
    } else {
      assert a + b == a;
    }
  }

  /** With non-negative advances the components go left to right: offsets never decrease. */
  lemma {:induction false} OffsetsMonotone(components: seq<string>, advances: map<string, int>, j: nat, k: nat)
    requires HasAdvances(components, advances)
    requires forall c :: c in advances ==> advances[c] >= 0
    requires j <= k <= |components|
    ensures SumAdvances(components[..j], advances) <= SumAdvances(components[..k], advances)
  {
    if j < k {
      OffsetsMonotone(components, advances, j, k - 1);
      assert components[..k][..k - 1] == components[..k - 1];
    }
  }
}
