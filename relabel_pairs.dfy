/**
 * `relabel_pairs`: replaces input and output labels through two lists of
 * (old, new) pairs; a label no pair names keeps its value.
 */
module RelabelPairs {
  import opened Wrappers
  import opened FstTypes
  import opened TrsIterMuts
  import opened VectorFsts

  /** No label is the old label of two pairs. */
  predicate NoRepeatedKey(pairs: seq<(Label, Label)>)
  {
    forall i, j :: 0 <= i < j < |pairs| ==> pairs[i].0 != pairs[j].0
  }

  /** The map the pairs describe, later pairs overriding earlier ones. */
  function PairsMap(pairs: seq<(Label, Label)>): map<Label, Label>
  {
    if pairs == [] then map[]
    else PairsMap(pairs[..|pairs| - 1])[pairs[|pairs| - 1].0 := pairs[|pairs| - 1].1]
  }

  /**
   * `iterator_to_hashmap`: inserts the pairs one by one and fails on the
   * first old label met twice.
   */
  method IteratorToHashmap(pairs: seq<(Label, Label)>) returns (r: Result<map<Label, Label>>)
    ensures r.Ok? <==> NoRepeatedKey(pairs)
    ensures r.Ok? ==> r.value == PairsMap(pairs)
  {
    var m: map<Label, Label> := map[];
    var i := 0;
    while i < |pairs|
      invariant 0 <= i <= |pairs|
      invariant NoRepeatedKey(pairs[..i]) && m == PairsMap(pairs[..i])
      invariant m.Keys == set k | 0 <= k < i :: pairs[k].0
    {
      var (s1, s2) := pairs[i];
      if s1 in m {
        var k :| 0 <= k < i && pairs[k].0 == s1;
        assert !NoRepeatedKey(pairs) by {
          assert pairs[k].0 == pairs[i].0;
        }
        return Err("State is present twice in the relabeling pairs");
      }
      assert pairs[..i + 1][..i] == pairs[..i];
      m := m[s1 := s2];
      i := i + 1;
    }
    assert pairs[..i] == pairs;
    r := Ok(m);
  }

  /**
   * On pairs without a repeated old label, the map sends each pair's old
   * label to its new one and knows no other label.
   */
  lemma {:induction false} PairsMapLookup(pairs: seq<(Label, Label)>)
    requires NoRepeatedKey(pairs)
    ensures forall i :: 0 <= i < |pairs| ==> pairs[i].0 in PairsMap(pairs) && PairsMap(pairs)[pairs[i].0] == pairs[i].1
    ensures forall l :: l in PairsMap(pairs) <==> exists i :: 0 <= i < |pairs| && pairs[i].0 == l
    decreases |pairs|
  {
    if pairs != [] {
      var p := pairs[..|pairs| - 1];
      assert NoRepeatedKey(p);
      PairsMapLookup(p);
      forall l | l in PairsMap(pairs) ensures exists i :: 0 <= i < |pairs| && pairs[i].0 == l {
        if l != pairs[|pairs| - 1].0 {
          var i :| 0 <= i < |p| && p[i].0 == l;
          assert pairs[i].0 == l;
        }
      }
      forall l | exists i :: 0 <= i < |pairs| && pairs[i].0 == l ensures l in PairsMap(pairs) {
        var i :| 0 <= i < |pairs| && pairs[i].0 == l;
        if i < |p| {
          assert p[i].0 == l;
        }
      }
    }
  }

  /** A label through a map: replaced when mapped, kept otherwise. */
  function Relabel(m: map<Label, Label>, l: Label): Label
  {
    if l in m then m[l] else l
  }

  function RelabelTr<W>(tr: Tr<W>, mi: map<Label, Label>, mo: map<Label, Label>): Tr<W>
  {
    tr.(ilabel := Relabel(mi, tr.ilabel), olabel := Relabel(mo, tr.olabel))
  }

  function RelabelTrs<W>(trs: seq<Tr<W>>, mi: map<Label, Label>, mo: map<Label, Label>): seq<Tr<W>>
  {
    seq(|trs|, k requires 0 <= k < |trs| => RelabelTr(trs[k], mi, mo))
  }

  /** The states after relabelling with the two maps. */
  function RelabelStates<W>(states: seq<VectorFstState<W>>, mi: map<Label, Label>, mo: map<Label, Label>)
    : seq<VectorFstState<W>>
  {
    seq(|states|, s requires 0 <= s < |states| => states[s].(trs := RelabelTrs(states[s].trs, mi, mo)))
  }

  /**
   * The inner loop of `relabel_pairs`: for each transition the iterator
   * holds, sets both labels, one of them or none, as the maps say.
   */
  method RelabelAll<W(==)>(it: TrsIterMut<W>, mi: map<Label, Label>, mo: map<Label, Label>)
    requires it.Valid()
    modifies it
    ensures it.Valid() && it.trs == RelabelTrs(old(it.trs), mi, mo)
  {
    ghost var trs := it.trs;
    var idx := 0;
    while idx < it.Len()
      invariant it.Valid() && |it.trs| == |trs| && 0 <= idx <= |trs|
      invariant forall k :: 0 <= k < idx ==> it.trs[k] == RelabelTr(trs[k], mi, mo)
      invariant forall k :: idx <= k < |trs| ==> it.trs[k] == trs[k]
    {
      var tr := it.trs[idx];
      if tr.ilabel in mi && tr.olabel in mo {
        it.SetLabelsUnchecked(idx, mi[tr.ilabel], mo[tr.olabel]);
      } else if tr.ilabel in mi {
        it.SetIlabelUnchecked(idx, mi[tr.ilabel]);
      } else if tr.olabel in mo {
        it.SetOlabelUnchecked(idx, mo[tr.olabel]);
      }
      idx := idx + 1;
    }
  }

  /**
   * `relabel_pairs(fst, ipairs, opairs)`: an old label repeated in either
   * list is an error raised before any transition is touched; otherwise
   * every transition is relabelled through the two maps.
   */
  method RelabelPairsOf<W(==)>(zero: W, one: W, fst: VectorFst<W>, ipairs: seq<(Label, Label)>, opairs: seq<(Label, Label)>)
    returns (r: Result<()>)
    modifies fst
    ensures fst.start == old(fst.start)
    ensures r.Ok? <==> NoRepeatedKey(ipairs) && NoRepeatedKey(opairs)
    ensures r.Err? ==> fst.states == old(fst.states)
    ensures r.Ok? ==> fst.states == RelabelStates(old(fst.states), PairsMap(ipairs), PairsMap(opairs))
  {
    var mapI := IteratorToHashmap(ipairs);
    if mapI.Err? {
      return Err("Error while creating the HashMap for ipairs");
    }
    var mapO := IteratorToHashmap(opairs);
    if mapO.Err? {
      return Err("Error while creating the HashMap for opairs");
    }
    var mi, mo := mapI.value, mapO.value;
    ghost var s0 := fst.states;
    var state := 0;
    while state < |fst.states|
      invariant 0 <= state <= |fst.states| == |s0|
      invariant fst.start == old(fst.start)
      invariant forall s :: 0 <= s < state ==> fst.states[s] == s0[s].(trs := RelabelTrs(s0[s].trs, mi, mo))
      invariant forall s :: state <= s < |s0| ==> fst.states[s] == s0[s]
    {
      var trs := fst.states[state].trs;
      var it := new TrsIterMut(zero, one, trs, {}, CountIEps(trs), CountOEps(trs));
      RelabelAll(it, mi, mo);
      fst.SetTrsUnchecked(state, it.trs);
      state := state + 1;
    }
    assert fst.states == RelabelStates(s0, mi, mo);
    r := Ok(());
  }

  /**
   * Relabelling touches labels only: the number of states, the final
   * weights, each state's number of transitions, and every weight and
   * destination stay; a label named by a pair becomes the pair's new
   * label and any other label is kept.
   */
  lemma RelabelShape<W>(states: seq<VectorFstState<W>>, ipairs: seq<(Label, Label)>, opairs: seq<(Label, Label)>)
    requires NoRepeatedKey(ipairs) && NoRepeatedKey(opairs)
    ensures var r := RelabelStates(states, PairsMap(ipairs), PairsMap(opairs));
            && |r| == |states|
            && (forall s :: 0 <= s < |r| ==> r[s].final_weight == states[s].final_weight && |r[s].trs| == |states[s].trs|)
            && (forall s, k :: 0 <= s < |r| && 0 <= k < |r[s].trs| ==>
                  r[s].trs[k].weight == states[s].trs[k].weight && r[s].trs[k].nextstate == states[s].trs[k].nextstate)
            && (forall s, k, i :: 0 <= s < |r| && 0 <= k < |r[s].trs| && 0 <= i < |ipairs| && states[s].trs[k].ilabel == ipairs[i].0 ==>
                  r[s].trs[k].ilabel == ipairs[i].1)
            && (forall s, k, i :: 0 <= s < |r| && 0 <= k < |r[s].trs| && 0 <= i < |opairs| && states[s].trs[k].olabel == opairs[i].0 ==>
                  r[s].trs[k].olabel == opairs[i].1)
            && (forall s, k :: (0 <= s < |r| && 0 <= k < |r[s].trs| &&
                  forall i :: 0 <= i < |ipairs| ==> ipairs[i].0 != states[s].trs[k].ilabel) ==>
                  r[s].trs[k].ilabel == states[s].trs[k].ilabel)
            && (forall s, k :: (0 <= s < |r| && 0 <= k < |r[s].trs| &&
                  forall i :: 0 <= i < |opairs| ==> opairs[i].0 != states[s].trs[k].olabel) ==>
                  r[s].trs[k].olabel == states[s].trs[k].olabel)
  {
    PairsMapLookup(ipairs);
    PairsMapLookup(opairs);
  }

  /** The unit test's FST, relabelled with its pairs, is the expected FST. */
  lemma RelabelPairsExample()
    ensures var st := [VectorFstState(None, [Tr(3, 18, 10, 1), Tr(2, 5, 10, 1), Tr(5, 9, 18, 2), Tr(5, 7, 18, 2)]),
                       VectorFstState(Some(31), []), VectorFstState(Some(45), [])];
            var expected := [VectorFstState(None, [Tr(45, 51, 10, 1), Tr(2, 75, 10, 1), Tr(75, 9, 18, 2), Tr(75, 85, 18, 2)]),
                             VectorFstState(Some(31), []), VectorFstState(Some(45), [])];
            var ipairs := [(3, 45), (5, 75)];
            var opairs := [(18, 51), (5, 75), (7, 85)];
            NoRepeatedKey(ipairs) && NoRepeatedKey(opairs) &&
            RelabelStates(st, PairsMap(ipairs), PairsMap(opairs)) == expected
  {
    var ipairs := [(3, 45), (5, 75)];
    var opairs := [(18, 51), (5, 75), (7, 85)];
    assert ipairs[..1] == [(3, 45)] && [(3, 45)][..0] == [];
    assert PairsMap(ipairs) == map[3 := 45, 5 := 75];
    assert opairs[..2] == [(18, 51), (5, 75)] && opairs[..2][..1] == [(18, 51)] && [(18, 51)][..0] == [];
    assert PairsMap(opairs[..2][..1]) == map[18 := 51];
    assert PairsMap(opairs[..2]) == map[18 := 51, 5 := 75];
    assert PairsMap(opairs) == map[18 := 51, 5 := 75, 7 := 85];
    var st := [VectorFstState(None, [Tr(3, 18, 10, 1), Tr(2, 5, 10, 1), Tr(5, 9, 18, 2), Tr(5, 7, 18, 2)]),
               VectorFstState(Some(31), []), VectorFstState(Some(45), [])];
    var expected := [VectorFstState(None, [Tr(45, 51, 10, 1), Tr(2, 75, 10, 1), Tr(75, 9, 18, 2), Tr(75, 85, 18, 2)]),
                     VectorFstState(Some(31), []), VectorFstState(Some(45), [])];
    var r := RelabelStates(st, PairsMap(ipairs), PairsMap(opairs));
    assert RelabelTrs(st[0].trs, PairsMap(ipairs), PairsMap(opairs)) == expected[0].trs;
    assert RelabelTrs(st[1].trs, PairsMap(ipairs), PairsMap(opairs)) == [];
    assert r[0] == expected[0] && r[1] == expected[1] && r[2] == expected[2];
  }
}
