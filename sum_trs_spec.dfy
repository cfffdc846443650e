/**
 * What `sum_trs_unchecked` computes on a state's transitions once they are
 * sorted: each run of transitions with the same (ilabel, olabel, nextstate)
 * becomes one transition whose weight is the Plus of the run's weights.
 */
module SumTrsSpec {
  import opened FstTypes
  import opened TrCompare

  /**
   * Merges each transition into the previously kept one when `equal_tr`
   * holds, which is `SameKey`: same labels and destination.
   */
  function SumRuns<W>(plus: (W, W) -> W, s: seq<Tr<W>>): seq<Tr<W>>
  {
    if s == [] then []
    else
      var r := SumRuns(plus, s[..|s| - 1]);
      var x := s[|s| - 1];
      if r != [] && SameKey(r[|r| - 1], x)
      then r[..|r| - 1] + [r[|r| - 1].(weight := plus(r[|r| - 1].weight, x.weight))]
      else r + [x]
  }

  /** The Plus, from left to right, of the weights of a non-empty run. */
  function SumWeights<W>(plus: (W, W) -> W, run: seq<Tr<W>>): W
    requires run != []
  {
    if |run| == 1 then run[0].weight
    else plus(SumWeights(plus, run[..|run| - 1]), run[|run| - 1].weight)
  }

  lemma {:induction false} KeyRunByKey<W>(s: seq<Tr<W>>, k1: Tr<W>, k2: Tr<W>)
    requires SameKey(k1, k2)
    ensures KeyRun(s, k1) == KeyRun(s, k2)
    decreases |s|
  {
    if s != [] {
      KeyRunByKey(s[..|s| - 1], k1, k2);
    }
  }

  lemma {:induction false} KeyRunWitness<W>(s: seq<Tr<W>>, k: Tr<W>)
    requires KeyRun(s, k) != []
    ensures exists j :: 0 <= j < |s| && SameKey(s[j], k)
    decreases |s|
  {
    if !SameKey(s[|s| - 1], k) {
      KeyRunWitness(s[..|s| - 1], k);
      var j :| 0 <= j < |s| - 1 && SameKey(s[..|s| - 1][j], k);
      assert s[j] == s[..|s| - 1][j];
    }
  }

  lemma {:induction false} KeyRunHas<W>(s: seq<Tr<W>>, j: nat)
    requires j < |s|
    ensures KeyRun(s, s[j]) != []
    decreases |s|
  {
    if j < |s| - 1 {
      KeyRunHas(s[..|s| - 1], j);
    }
  }

  /** Strictly increasing in `tr_compare` order: no key twice. */
  predicate StrictlySorted<W>(s: seq<Tr<W>>)
  {
    forall i, j :: 0 <= i < j < |s| ==> Compare(s[i], s[j]) == Less
  }

  /** Some transition of `s` has the key of `t`. */
  ghost predicate HasKey<W>(s: seq<Tr<W>>, t: Tr<W>)
  {
    exists i :: 0 <= i < |s| && SameKey(s[i], t)
  }

  ghost predicate LastKey<W>(s: seq<Tr<W>>, r: seq<Tr<W>>)
  {
    s != [] ==> r != [] && SameKey(r[|r| - 1], s[|s| - 1])
  }

  /** Every key of `s` occurs in `r`. */
  ghost predicate Covers<W>(s: seq<Tr<W>>, r: seq<Tr<W>>)
  {
    forall j :: 0 <= j < |s| ==> HasKey(r, s[j])
  }

  /** Each transition of `r` weighs the sum over its key's run in `s`. */
  ghost predicate Weighted<W>(plus: (W, W) -> W, s: seq<Tr<W>>, r: seq<Tr<W>>)
  {
    forall i :: 0 <= i < |r| ==> KeyRun(s, r[i]) != [] && r[i].weight == SumWeights(plus, KeyRun(s, r[i]))
  }

  lemma KeyRunSnoc<W>(p: seq<Tr<W>>, x: Tr<W>, k: Tr<W>)
    ensures KeyRun(p + [x], k) == KeyRun(p, k) + (if SameKey(x, k) then [x] else [])
  {
    assert (p + [x])[..|p|] == p;
  }

  lemma StrictMerge<W>(r: seq<Tr<W>>, nl: Tr<W>)
    requires StrictlySorted(r) && r != [] && SameKey(nl, r[|r| - 1])
    ensures StrictlySorted(r[..|r| - 1] + [nl])
  {
    var r' := r[..|r| - 1] + [nl];
    forall i, j | 0 <= i < j < |r'| ensures Compare(r'[i], r'[j]) == Less {
      assert r'[i] == r[i];
      if j < |r| - 1 { assert r'[j] == r[j]; } else { assert Compare(r[i], r[|r| - 1]) == Less; }
    }
  }

  lemma StrictAppend<W>(r: seq<Tr<W>>, x: Tr<W>)
    requires StrictlySorted(r)
    requires forall i :: 0 <= i < |r| ==> Compare(r[i], x) == Less
    ensures StrictlySorted(r + [x])
  {
    var r' := r + [x];
    forall i, j | 0 <= i < j < |r'| ensures Compare(r'[i], r'[j]) == Less {
      assert r'[i] == r[i];
      if j < |r| { assert r'[j] == r[j]; }
    }
  }

  /** A transition that does not share the key of the last kept one is above every key so far. */
  lemma FreshKey<W>(p: seq<Tr<W>>, x: Tr<W>, r: seq<Tr<W>>)
    requires Sorted(p + [x]) && LastKey(p, r)
    requires forall i :: 0 <= i < |r| ==> KeyRun(p, r[i]) != []
    requires !(r != [] && SameKey(r[|r| - 1], x))
    ensures forall j :: 0 <= j < |p| ==> Compare(p[j], x) == Less
    ensures forall i :: 0 <= i < |r| ==> Compare(r[i], x) == Less
  {
    if p != [] {
      var s := p + [x];
      var last := p[|p| - 1];
      assert LessEq(last, x) by { assert s[|p| - 1] == last && s[|p|] == x; }
      assert Compare(last, x) == Less by { assert !SameKey(last, x); }
      forall j | 0 <= j < |p| ensures Compare(p[j], x) == Less {
        if j < |p| - 1 {
          assert LessEq(p[j], last) by { assert s[j] == p[j] && s[|p| - 1] == last; }
        }
      }
    }
    forall i | 0 <= i < |r| ensures Compare(r[i], x) == Less {
      KeyRunWitness(p, r[i]);
      var j :| 0 <= j < |p| && SameKey(p[j], r[i]);
      assert Compare(p[j], x) == Less;
    }
  }

  lemma WeightedMerge<W>(plus: (W, W) -> W, p: seq<Tr<W>>, x: Tr<W>, r: seq<Tr<W>>)
    requires Weighted(plus, p, r) && StrictlySorted(r)
    requires r != [] && SameKey(r[|r| - 1], x)
    ensures Weighted(plus, p + [x], r[..|r| - 1] + [r[|r| - 1].(weight := plus(r[|r| - 1].weight, x.weight))])
  {
    var m := |r| - 1;
    var nl := r[m].(weight := plus(r[m].weight, x.weight));
    var r' := r[..m] + [nl];
    var s := p + [x];
    forall i | 0 <= i < |r'| ensures KeyRun(s, r'[i]) != [] && r'[i].weight == SumWeights(plus, KeyRun(s, r'[i])) {
      if i < m {
        assert r'[i] == r[i];
        assert Compare(r[i], r[m]) == Less;
        KeyRunSnoc(p, x, r[i]);
        assert KeyRun(s, r[i]) == KeyRun(p, r[i]);
      } else {
        assert r'[i] == nl;
        KeyRunByKey(s, nl, r[m]);
        KeyRunSnoc(p, x, r[m]);
        var q := KeyRun(p, r[m]);
        assert q != [] && r[m].weight == SumWeights(plus, q);
        assert KeyRun(s, nl) == q + [x];
        assert (q + [x])[..|q|] == q;
        assert SumWeights(plus, q + [x]) == plus(SumWeights(plus, q), x.weight);
      }
    }
  }

  lemma WeightedAppend<W>(plus: (W, W) -> W, p: seq<Tr<W>>, x: Tr<W>, r: seq<Tr<W>>)
    requires Weighted(plus, p, r)
    requires forall j :: 0 <= j < |p| ==> Compare(p[j], x) == Less
    requires forall i :: 0 <= i < |r| ==> Compare(r[i], x) == Less
    ensures Weighted(plus, p + [x], r + [x])
  {
    var s := p + [x];
    var r' := r + [x];
    KeyRunEmpty(p, x);
    KeyRunSnoc(p, x, x);
    forall i | 0 <= i < |r'| ensures KeyRun(s, r'[i]) != [] && r'[i].weight == SumWeights(plus, KeyRun(s, r'[i])) {
      if i < |r| {
        assert r'[i] == r[i];
        KeyRunSnoc(p, x, r[i]);
        assert KeyRun(s, r[i]) == KeyRun(p, r[i]);
      } else {
        assert r'[i] == x;
        assert KeyRun(s, x) == [x];
      }
    }
  }

  lemma KeysMerge<W>(p: seq<Tr<W>>, x: Tr<W>, r: seq<Tr<W>>, nl: Tr<W>)
    requires Covers(p, r)
    requires r != [] && SameKey(r[|r| - 1], x) && SameKey(nl, x)
    ensures Covers(p + [x], r[..|r| - 1] + [nl]) && LastKey(p + [x], r[..|r| - 1] + [nl])
  {
    var s := p + [x];
    var m := |r| - 1;
    var r' := r[..m] + [nl];
    forall j | 0 <= j < |s| ensures HasKey(r', s[j]) {
      if j < |p| {
        assert s[j] == p[j] && HasKey(r, p[j]);
        var i :| 0 <= i < |r| && SameKey(r[i], p[j]);
        if i < m { assert r'[i] == r[i]; } else { assert SameKey(r'[m], s[j]); }
      } else {
        assert SameKey(r'[m], s[j]);
      }
    }
  }

  lemma KeysAppend<W>(p: seq<Tr<W>>, x: Tr<W>, r: seq<Tr<W>>)
    requires Covers(p, r)
    ensures Covers(p + [x], r + [x]) && LastKey(p + [x], r + [x])
  {
    var s := p + [x];
    var r' := r + [x];
    forall j | 0 <= j < |s| ensures HasKey(r', s[j]) {
      if j < |p| {
        assert s[j] == p[j] && HasKey(r, p[j]);
        var i :| 0 <= i < |r| && SameKey(r[i], p[j]);
        assert r'[i] == r[i];
      } else {
        assert r'[|r|] == s[j];
      }
    }
  }

  lemma {:induction false} SumRunsInduct<W>(plus: (W, W) -> W, s: seq<Tr<W>>)
    requires Sorted(s)
    ensures StrictlySorted(SumRuns(plus, s)) && LastKey(s, SumRuns(plus, s))
    ensures Covers(s, SumRuns(plus, s))
    ensures Weighted(plus, s, SumRuns(plus, s))
    decreases |s|
  {
    if s != [] {
      var p := s[..|s| - 1];
      var x := s[|s| - 1];
      assert s == p + [x];
      assert Sorted(p);
      SumRunsInduct(plus, p);
      var r := SumRuns(plus, p);
      if r != [] && SameKey(r[|r| - 1], x) {
        var nl := r[|r| - 1].(weight := plus(r[|r| - 1].weight, x.weight));
        StrictMerge(r, nl);
        KeysMerge(p, x, r, nl);
        WeightedMerge(plus, p, x, r);
      } else {
        FreshKey(p, x, r);
        StrictAppend(r, x);
        KeysAppend(p, x, r);
        WeightedAppend(plus, p, x, r);
      }
    }
  }

  /**
   * On sorted transitions the merge leaves no two transitions with the same
   * (ilabel, olabel, nextstate), keeps exactly the keys that occur, and gives
   * each kept transition the Plus of the weights of all transitions with its
   * key, in their order.
   */
  lemma SumRunsCorrect<W>(plus: (W, W) -> W, s: seq<Tr<W>>)
    requires Sorted(s)
    ensures StrictlySorted(SumRuns(plus, s))
    ensures forall i :: 0 <= i < |SumRuns(plus, s)| ==>
              KeyRun(s, SumRuns(plus, s)[i]) != [] &&
              SumRuns(plus, s)[i].weight == SumWeights(plus, KeyRun(s, SumRuns(plus, s)[i]))
    ensures forall j :: 0 <= j < |s| ==> HasKey(SumRuns(plus, s), s[j])
  {
    SumRunsInduct(plus, s);
  }
}
