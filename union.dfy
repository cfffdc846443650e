/**
 * `union` (the static, in-place one): appends a copy of FST2 to FST1 and
 * joins the two start states, either by an epsilon transition from FST1's
 * start when no cycle returns to it, or through a new start state with
 * epsilon transitions to both.
 */
module Unions {
  import opened Wrappers
  import opened FstTypes
  import opened VectorFsts
  import opened Concats

  function Eps<W>(w: W, dest: StateId): Tr<W>
  {
    Tr(EPS_LABEL, EPS_LABEL, w, dest)
  }

  /**
   * The states after `union` when FST2 has start `start2`: FST1's states,
   * then the shifted copy of FST2's, then the joining of the starts.
   */
  function UnionStates<W>(s1: seq<VectorFstState<W>>, start1: Option<StateId>, s2: seq<VectorFstState<W>>,
                          start2: StateId, one: W, initialAcyclic1: bool): seq<VectorFstState<W>>
    requires StartInRange(s1, start1)
  {
    var n1 := |s1|;
    var c := s1 + ShiftStates(s2, n1);
    if start1.None? then c
    else if initialAcyclic1 then
      c[start1.value := c[start1.value].(trs := c[start1.value].trs + [Eps(one, start2 + n1)])]
    else c + [VectorFstState(None, [Eps(one, start1.value), Eps(one, start2 + n1)])]
  }

  /** The start after `union`, with FST2's start read in the numbering of the result. */
  function UnionStart(n1: nat, start1: Option<StateId>, n2: nat, start2: StateId, initialAcyclic1: bool): Option<StateId>
  {
    if start1.None? then Some(start2 + n1)
    else if initialAcyclic1 then start1
    else Some(n1 + n2)
  }

  /** The start after `union` as the source sets it: FST2's start id, not shifted, when FST1 has none. */
  function UnionStartAsWritten(n1: nat, start1: Option<StateId>, n2: nat, start2: StateId, initialAcyclic1: bool)
    : (r: Option<StateId>)
    ensures start1.Some? ==> r == UnionStart(n1, start1, n2, start2, initialAcyclic1)
    ensures start1.None? && n1 > 0 ==> r != UnionStart(n1, start1, n2, start2, initialAcyclic1)
  {
    if start1.None? then Some(start2)
    else if initialAcyclic1 then start1
    else Some(n1 + n2)
  }

  /**
   * `union(fst_1, fst_2)`: nothing changes when FST2 has no start;
   * otherwise FST1 becomes `UnionStates` with start `UnionStart`.
   * `initialAcyclic1` is what the property computation answers for
   * `INITIAL_ACYCLIC` on FST1. The start of FST1 must exist, as the source
   * writes to it unchecked.
   */
  method Union<W>(one: W, fst1: VectorFst<W>, fst2: VectorFst<W>, initialAcyclic1: bool) returns (r: Result<()>)
    requires fst1 != fst2
    requires StartInRange(fst1.states, fst1.start)
    modifies fst1
    ensures r.Ok?
    ensures fst2.start.None? ==> fst1.states == old(fst1.states) && fst1.start == old(fst1.start)
    ensures fst2.start.Some? ==>
              && fst1.states == UnionStates(old(fst1.states), old(fst1.start), fst2.states, fst2.start.value, one, initialAcyclic1)
              && fst1.start == UnionStart(|old(fst1.states)|, old(fst1.start), |fst2.states|, fst2.start.value, initialAcyclic1)
  {
    r := Ok(());
    var numstates1 := |fst1.states|;
    if fst2.start.None? {
      return;
    }
    var start2 := fst2.start.value;
    AppendShifted(fst1, fst2);
    if fst1.start.None? {
      fst1.SetStartUnchecked(start2 + numstates1);
      return;
    }
    var start1 := fst1.start.value;
    ghost var c := fst1.states;
    if initialAcyclic1 {
      fst1.AddTrUnchecked(start1, Eps(one, start2 + numstates1));
    } else {
      var nstart1 := fst1.AddState();
      fst1.SetStartUnchecked(nstart1);
      fst1.AddTrUnchecked(nstart1, Eps(one, start1));
      fst1.AddTrUnchecked(nstart1, Eps(one, start2 + numstates1));
      assert [Eps(one, start1)] + [Eps(one, start2 + numstates1)] == [Eps(one, start1), Eps(one, start2 + numstates1)];
      assert fst1.states[nstart1] == VectorFstState(None, [Eps(one, start1), Eps(one, start2 + numstates1)]);
      assert fst1.states == fst1.states[..nstart1] + [fst1.states[nstart1]];
    }
  }

  /**
   * The start of the result behaves as FST2's start when FST1 has none: it
   * has FST2's start's final weight and its transitions, shifted.
   */
  lemma UnionStartIsStart2<W>(s1: seq<VectorFstState<W>>, s2: seq<VectorFstState<W>>, start2: StateId, one: W, acyclic: bool)
    requires start2 < |s2|
    ensures var r := UnionStates(s1, None, s2, start2, one, acyclic);
            var st := UnionStart(|s1|, None, |s2|, start2, acyclic).value;
            st < |r| && r[st] == ShiftState(s2[start2], |s1|)
  {
    var r := UnionStates(s1, None, s2, start2, one, acyclic);
    assert r[start2 + |s1|] == ShiftStates(s2, |s1|)[start2];
  }

  /**
   * What the source does instead: with one state in FST1 and no start, and
   * FST2 a single final start state, the start of the result is FST1's
   * non-final state 0 rather than the final copy of FST2's start.
   */
  lemma UnionStartAsWrittenMisses()
    ensures var s1: seq<VectorFstState<int>> := [VectorFstState(None, [])];
            var s2: seq<VectorFstState<int>> := [VectorFstState(Some(1), [])];
            var r := UnionStates(s1, None, s2, 0, 1, false);
            var st := UnionStartAsWritten(|s1|, None, |s2|, 0, false).value;
            st < |r| && r[st].final_weight.None? && r[st] != ShiftState(s2[0], |s1|)
  {
  }

  /**
   * When FST1 has a start, the start of the result reaches FST1's start
   * (or is it) and the copy of FST2's start by epsilon transitions of
   * weight One: FST1's own start gains exactly one transition to the copy
   * when it is on no cycle, and a new start with exactly the two
   * transitions is added otherwise.
   */
  lemma UnionJoinsStarts<W>(s1: seq<VectorFstState<W>>, start1: StateId, s2: seq<VectorFstState<W>>, start2: StateId,
                            one: W, acyclic: bool)
    requires start1 < |s1|
    ensures var r := UnionStates(s1, Some(start1), s2, start2, one, acyclic);
            var st := UnionStart(|s1|, Some(start1), |s2|, start2, acyclic).value;
            && |r| == |s1| + |s2| + (if acyclic then 0 else 1)
            && st < |r|
            && (acyclic ==> st == start1 && r[st] == s1[start1].(trs := s1[start1].trs + [Eps(one, start2 + |s1|)]))
            && (!acyclic ==> r[st] == VectorFstState(None, [Eps(one, start1), Eps(one, start2 + |s1|)]))
  {
  }

  /**
   * The states of both inputs survive: FST1's keep their final weights and
   * transitions (FST1's start possibly with one more at the end), and FST2's
   * are shifted copies.
   */
  lemma UnionKeepsStates<W>(s1: seq<VectorFstState<W>>, start1: Option<StateId>, s2: seq<VectorFstState<W>>, start2: StateId,
                            one: W, acyclic: bool)
    requires StartInRange(s1, start1)
    ensures var r := UnionStates(s1, start1, s2, start2, one, acyclic);
            && |r| >= |s1| + |s2|
            && (forall i :: 0 <= i < |s1| ==>
                  r[i].final_weight == s1[i].final_weight && r[i].trs[..|s1[i].trs|] == s1[i].trs)
            && (forall j :: |s1| <= j < |s1| + |s2| ==> r[j] == ShiftState(s2[j - |s1|], |s1|))
  {
    var r := UnionStates(s1, start1, s2, start2, one, acyclic);
    forall i | 0 <= i < |s1| ensures r[i].final_weight == s1[i].final_weight && r[i].trs[..|s1[i].trs|] == s1[i].trs {
      if start1.Some? && acyclic && i == start1.value {
        assert r[i].trs == s1[i].trs + [Eps(one, start2 + |s1|)];
      }
    }
  }

  /**
   * Union keeps an FST well formed: with both inputs' transitions and
   * starts in range, so are the result's.
   */
  lemma UnionInRange<W>(s1: seq<VectorFstState<W>>, start1: Option<StateId>, s2: seq<VectorFstState<W>>, start2: StateId,
                        one: W, acyclic: bool)
    requires TrsInRange(s1) && StartInRange(s1, start1) && TrsInRange(s2) && start2 < |s2|
    ensures var r := UnionStates(s1, start1, s2, start2, one, acyclic);
            TrsInRange(r) && StartInRange(r, UnionStart(|s1|, start1, |s2|, start2, acyclic))
  {
    var n1 := |s1|;
    var c := s1 + ShiftStates(s2, n1);
    assert TrsInRange(c) by {
      forall s, k | 0 <= s < |c| && 0 <= k < |c[s].trs| ensures c[s].trs[k].nextstate < |c| {
        if s >= n1 {
          assert c[s] == ShiftState(s2[s - n1], n1);
        }
      }
    }
    var r := UnionStates(s1, start1, s2, start2, one, acyclic);
    forall s, k | 0 <= s < |r| && 0 <= k < |r[s].trs| ensures r[s].trs[k].nextstate < |r| {
      if start1.Some? && acyclic && s == start1.value && k == |c[s].trs| {
      } else if start1.Some? && !acyclic && s == |c| {
      } else {
        assert r[s].trs[k] == c[s].trs[k];
      }
    }
  }
}
