/**
 * A run of `writeGlyph` calls on one glyph set. Each call creates or replaces one
 * entry; the lemmas say which entry a run of calls leaves under each name.
 */
module GlyphWrites {

  /** The map after storing each `(name, value)` of `writes`, in order, over `m`. */
  function Written<V>(m: map<string, V>, writes: seq<(string, V)>): map<string, V>
  {
    if writes == [] then m
    else Written(m, writes[..|writes| - 1])[writes[|writes| - 1].0 := writes[|writes| - 1].1]
  }

  /** The names of `writes`, in writing order. */
  function WrittenNames<V>(writes: seq<(string, V)>): (names: seq<string>)
    ensures |names| == |writes|
  {
    seq(|writes|, k requires 0 <= k < |writes| => writes[k].0)
  }

  /** No two entries of the list are equal. */
  predicate Distinct<T(==)>(xs: seq<T>)
  {
    forall i, j :: 0 <= i < j < |xs| ==> xs[i] != xs[j]
  }

  /** One more write extends the run by one update. */
  lemma WrittenStep<V>(m: map<string, V>, writes: seq<(string, V)>, n: nat)
    requires n < |writes|
    ensures Written(m, writes[..n + 1]) == Written(m, writes[..n])[writes[n].0 := writes[n].1]
  {
    assert writes[..n + 1][..n] == writes[..n];
  }

  /** With distinct names, every write survives the later ones. */
  lemma {:induction false} WrittenAt<V>(m: map<string, V>, writes: seq<(string, V)>, k: nat)
    requires Distinct(WrittenNames(writes)) && k < |writes|
    ensures writes[k].0 in Written(m, writes)
    ensures Written(m, writes)[writes[k].0] == writes[k].1
  {
    var init := writes[..|writes| - 1];
    if k < |writes| - 1 {
      assert WrittenNames(writes)[k] != WrittenNames(writes)[|writes| - 1];
      assert WrittenNames(init) == WrittenNames(writes)[..|writes| - 1];
      WrittenAt(m, init, k);
    }
  }

  /** A name that is never written keeps its old entry, or stays absent. */
  lemma {:induction false} WrittenElsewhere<V>(m: map<string, V>, writes: seq<(string, V)>, key: string)
    requires key !in WrittenNames(writes)
    ensures key in Written(m, writes) <==> key in m
    ensures key in m ==> Written(m, writes)[key] == m[key]
  {
    if writes != [] {
      var init := writes[..|writes| - 1];
      assert WrittenNames(init) == WrittenNames(writes)[..|writes| - 1];
      assert key != WrittenNames(writes)[|writes| - 1];
      WrittenElsewhere(m, init, key);
    }
  }

  /** The run's keys are the old keys and the written names. */
  lemma {:induction false} WrittenKeys<V>(m: map<string, V>, writes: seq<(string, V)>, key: string)
    ensures key in Written(m, writes) <==> key in m || key in WrittenNames(writes)
  {
    if writes != [] {
      var init := writes[..|writes| - 1];
      assert WrittenNames(writes) == WrittenNames(init) + [writes[|writes| - 1].0];
      WrittenKeys(m, init, key);
    }
  }

  /** Writing entries that are already stored changes nothing. */
  lemma {:induction false} WrittenPresent<V>(m: map<string, V>, writes: seq<(string, V)>)
    requires forall k :: 0 <= k < |writes| ==> writes[k].0 in m && m[writes[k].0] == writes[k].1
    ensures Written(m, writes) == m
  {
    if writes != [] {
      WrittenPresent(m, writes[..|writes| - 1]);
    }
  }

  /** A list without repetitions has as many distinct elements as entries. */
  lemma {:induction false} DistinctCount<T>(xs: seq<T>)
    requires Distinct(xs)
    ensures |set x | x in xs| == |xs|
  {
    if xs != [] {
      var init, last := xs[..|xs| - 1], xs[|xs| - 1];
      DistinctCount(init);
      assert (set x | x in xs) == (set x | x in init) + {last};
      assert last !in (set x | x in init);
    }
  }
}
