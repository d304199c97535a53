/**
 * Decimal numerals and the digit glyph names of build_opsz_glyphs.py:
 * Python's `str(n)` for a non-negative integer, the `numberToGlyphName`
 * table and `glyphNamesFromNumber`.
 */
module Numerals {
  import opened Wrappers

  /** The `numberToGlyphName` table: the glyph name of each decimal digit, indexed by the digit. */
  const NumberToGlyphName: seq<string> :=
    ["zero", "one", "two", "three", "four", "five", "six", "seven", "eight", "nine"]

  /** The value of a digit sequence read as a decimal numeral, most significant digit first. */
  function DigitsValue(ds: seq<nat>): nat
  {
    if ds == [] then 0 else 10 * DigitsValue(ds[..|ds| - 1]) + ds[|ds| - 1]
  }

  /** A digit sequence as `str` writes it: at least one digit, each below ten, no leading zero. */
  predicate IsCanonical(ds: seq<nat>)
  {
    && 1 <= |ds|
    && (forall k :: 0 <= k < |ds| ==> ds[k] < 10)
    && (1 < |ds| ==> ds[0] != 0)
  }

  function Pow10(k: nat): (p: nat)
    ensures 1 <= p
  {
    if k == 0 then 1 else 10 * Pow10(k - 1)
  }

  /** The decimal digits of `n`, most significant first: the characters of Python's `str(n)`, as values. */
  function DecimalDigits(n: nat): (ds: seq<nat>)
    ensures IsCanonical(ds)
    ensures DigitsValue(ds) == n
    decreases n
  {
    if n < 10 then [n]
    else
      var init := DecimalDigits(n / 10);
      var ds := init + [n % 10];
      assert ds[..|ds| - 1] == init;
      ds
  }

  /** The number of decimal digits of `n`. */
  function NumDigits(n: nat): nat
  {
    |DecimalDigits(n)|
  }

  /** A digit of `DecimalDigits` is spelled by the character of the same code point offset from '0'. */
  function DigitChar(d: nat): (c: char)
    requires d < 10
    ensures '0' <= c <= '9'
  {
    (48 + d) as char
  }

  /** Python's `int(c)` for a single decimal digit character. */
  function CharDigit(c: char): (d: nat)
    requires '0' <= c <= '9'
    ensures d < 10
  {
    c as int - 48
  }

  /** Python's `str(n)` for a non-negative integer. */
  function DecimalString(n: nat): (s: string)
    ensures |s| == NumDigits(n)
    ensures forall k :: 0 <= k < |s| ==> '0' <= s[k] <= '9' && CharDigit(s[k]) == DecimalDigits(n)[k]
  {
    var ds := DecimalDigits(n);
    seq(|ds|, k requires 0 <= k < |ds| => DigitChar(ds[k]))
  }

  /**
   * `glyphNamesFromNumber`: each character of `str(n)` is converted back with `int`
   * and looked up in `NumberToGlyphName`.
   */
  function GlyphNamesFromNumber(n: nat): (names: seq<string>)
    ensures |names| == NumDigits(n)
    ensures forall k :: 0 <= k < |names| ==> names[k] == NumberToGlyphName[DecimalDigits(n)[k]]
    ensures forall k :: 0 <= k < |names| ==> names[k] in NumberToGlyphName
    ensures n < 10 ==> names == [NumberToGlyphName[n]]
  {
    var s := DecimalString(n);
    seq(|s|, k requires 0 <= k < |s| => NumberToGlyphName[CharDigit(s[k])])
  }

  /** The first position of `x` in `xs` (Python's `list.index`), or None when it is absent. */
  function IndexOf<T(==)>(xs: seq<T>, x: T): (r: Option<nat>)
    ensures r.Some? ==> r.value < |xs| && xs[r.value] == x && x !in xs[..r.value]
    ensures r.None? ==> x !in xs
  {
    if xs == [] then None
    else if xs[0] == x then Some(0)
    else match IndexOf(xs[1..], x)
      case None => None
      case Some(k) => Some(k + 1)
  }

  /** The position of each of `xs` in `table`, or None when one of them is absent. */
  function IndicesIn<T(==)>(table: seq<T>, xs: seq<T>): (r: Option<seq<nat>>)
    ensures r.Some? <==> forall k :: 0 <= k < |xs| ==> xs[k] in table
    ensures r.Some? ==> |r.value| == |xs|
    ensures r.Some? ==> forall k :: 0 <= k < |xs| ==> r.value[k] < |table| && table[r.value[k]] == xs[k]
  {
    if xs == [] then Some([])
    else
      var first := IndexOf(table, xs[0]);
      var rest := IndicesIn(table, xs[1..]);
      if first.None? || rest.None? then None else Some([first.value] + rest.value)
  }

  /** Reads glyph names back as digits: the index of each name in `NumberToGlyphName`. */
  function DigitsFromGlyphNames(names: seq<string>): Option<seq<nat>>
  {
    IndicesIn(NumberToGlyphName, names)
  }

  /** Reads a sequence of digit glyph names back as the number it spells. */
  function NumberFromGlyphNames(names: seq<string>): Option<nat>
  {
    match DigitsFromGlyphNames(names)
    case None => None
    case Some(ds) => if ds == [] then None else Some(DigitsValue(ds))
  }

  /** The ten digit names are pairwise distinct, so a name determines its digit. */
  lemma DigitNamesDistinct(d: nat, e: nat)
    requires d < 10 && e < 10 && NumberToGlyphName[d] == NumberToGlyphName[e]
    ensures d == e
  {
    var t := NumberToGlyphName;
    assert t[0][0] == 'z' && t[1][0] == 'o' && t[2][0] == 't' && t[3][0] == 't' && t[4][0] == 'f';
    assert t[5][0] == 'f' && t[6][0] == 's' && t[7][0] == 's' && t[8][0] == 'e' && t[9][0] == 'n';
    assert t[2][1] == 'w' && t[3][1] == 'h' && t[4][1] == 'o' && t[5][1] == 'i' && t[6][1] == 'i' && t[7][1] == 'e';
  }

  /** Reading the names back recovers exactly the digits they were made from. */
  lemma {:induction false} DigitsFromNamesOfDigits(ds: seq<nat>)
    requires forall k :: 0 <= k < |ds| ==> ds[k] < 10
    ensures DigitsFromGlyphNames(seq(|ds|, k requires 0 <= k < |ds| => NumberToGlyphName[ds[k]])) == Some(ds)
  {
    var names := seq(|ds|, k requires 0 <= k < |ds| => NumberToGlyphName[ds[k]]);
    var r := DigitsFromGlyphNames(names);
    assert r.Some?;
    forall k | 0 <= k < |ds| ensures r.value[k] == ds[k] {
      DigitNamesDistinct(r.value[k], ds[k]);
    }
    assert r.value == ds;
  }

  /** Canonical digit sequences with a non-zero leading digit spell at least the matching power of ten. */
  lemma {:induction false} LeadingDigitBound(ds: seq<nat>)
    requires 1 <= |ds| && ds[0] != 0
    ensures Pow10(|ds| - 1) <= DigitsValue(ds)
  {
    if |ds| > 1 {
      var init := ds[..|ds| - 1];
      assert init[0] == ds[0];
      LeadingDigitBound(init);
    }
  }

  /** Every numeral of `k` digits is below `10^k`. */
  lemma {:induction false} DigitsValueBound(ds: seq<nat>)
    requires forall k :: 0 <= k < |ds| ==> ds[k] < 10
    ensures DigitsValue(ds) < Pow10(|ds|)
  {
    if ds != [] {
      DigitsValueBound(ds[..|ds| - 1]);
    }
  }

  /** `n` has `NumDigits(n)` decimal digits: it lies between the two neighbouring powers of ten. */
  lemma DigitCount(n: nat)
    ensures n < Pow10(NumDigits(n))
    ensures 1 <= n ==> Pow10(NumDigits(n) - 1) <= n
  {
    var ds := DecimalDigits(n);
    DigitsValueBound(ds);
    if 1 <= n {
      if |ds| == 1 {
        assert ds[0] == n;
      }
      LeadingDigitBound(ds);
    }
  }

  /** Canonical digit sequences are exactly the ones `DecimalDigits` produces. */
  lemma {:induction false} CanonicalDigitsRoundTrip(ds: seq<nat>)
    requires IsCanonical(ds)
    ensures DecimalDigits(DigitsValue(ds)) == ds
  {
    if |ds| > 1 {
      var init := ds[..|ds| - 1];
      assert init[0] == ds[0];
      LeadingDigitBound(init);
      assert IsCanonical(init);
      CanonicalDigitsRoundTrip(init);
      var n := DigitsValue(ds);
      assert n / 10 == DigitsValue(init) && n % 10 == ds[|ds| - 1];
      assert ds == init + [ds[|ds| - 1]];
    }
  }

  /** Round trip: the names of `n` read back as indices give `n` again. */
  lemma NumberFromNamesOfNumber(n: nat)
    ensures NumberFromGlyphNames(GlyphNamesFromNumber(n)) == Some(n)
  {
    var ds := DecimalDigits(n);
    var names := GlyphNamesFromNumber(n);
    assert names == seq(|ds|, k requires 0 <= k < |ds| => NumberToGlyphName[ds[k]]);
    DigitsFromNamesOfDigits(ds);
  }

  /**
   * The other direction: digit names without a leading "zero" (unless alone) are
   * exactly what `GlyphNamesFromNumber` gives for the number they spell.
   */
  lemma NamesOfNumberFromNames(names: seq<string>)
    requires 1 <= |names|
    requires forall k :: 0 <= k < |names| ==> names[k] in NumberToGlyphName
    requires 1 < |names| ==> names[0] != NumberToGlyphName[0]
    ensures NumberFromGlyphNames(names).Some?
    ensures GlyphNamesFromNumber(NumberFromGlyphNames(names).value) == names
  {
    var ds := DigitsFromGlyphNames(names).value;
    assert IsCanonical(ds);
    CanonicalDigitsRoundTrip(ds);
  }

  /** `str` is injective on the non-negative integers. */
  lemma DecimalStringInjective(a: nat, b: nat)
    requires DecimalString(a) == DecimalString(b)
    ensures a == b
  {
    var da, db := DecimalDigits(a), DecimalDigits(b);
    assert |da| == |db|;
    assert forall k :: 0 <= k < |da| ==> da[k] == CharDigit(DecimalString(a)[k]) == db[k];
    assert da == db;
  }
}
