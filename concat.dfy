/**
 * `concat`: appends a copy of FST2 to FST1, in place. Every final state of
 * FST1 stops being final and, when FST2 has a start state, gets an epsilon
 * transition carrying its old final weight to the copy of that start.
 */
module Concats {
  import opened Wrappers
  import opened FstTypes
  import opened VectorFsts

  /** The transitions with their destinations moved up by `n`. */
  function ShiftTrs<W>(trs: seq<Tr<W>>, n: nat): seq<Tr<W>>
  {
    seq(|trs|, k requires 0 <= k < |trs| => trs[k].(nextstate := trs[k].nextstate + n))
  }

  /** A state of FST2 as copied after the `n` states of FST1. */
  function ShiftState<W>(st: VectorFstState<W>, n: nat): VectorFstState<W>
  {
    st.(trs := ShiftTrs(st.trs, n))
  }

  /** FST2's states as copied after the `n` states of FST1. */
  function ShiftStates<W>(states: seq<VectorFstState<W>>, n: nat): seq<VectorFstState<W>>
  {
    seq(|states|, j requires 0 <= j < |states| => ShiftState(states[j], n))
  }

  /**
   * A state of FST1 after concatenation: a final state loses its final
   * weight and, when FST2 has a start, gains an epsilon transition with that
   * weight to the copy of FST2's start.
   */
  function CloseFinal<W>(st: VectorFstState<W>, start2: Option<StateId>, n1: nat): VectorFstState<W>
  {
    if st.final_weight.None? then st
    else
      VectorFstState(None, st.trs + if start2.Some? then [Tr(EPS_LABEL, EPS_LABEL, st.final_weight.value, start2.value + n1)] else [])
  }

  /** The states after `concat` when FST1 has a start. */
  function ConcatStates<W>(s1: seq<VectorFstState<W>>, s2: seq<VectorFstState<W>>, start2: Option<StateId>)
    : seq<VectorFstState<W>>
  {
    seq(|s1|, i requires 0 <= i < |s1| => CloseFinal(s1[i], start2, |s1|)) +
    ShiftStates(s2, |s1|)
  }

  /**
   * The copy loop shared by `concat` and `union`: appends every state of
   * FST2 to FST1, final weight and transitions, with each destination moved
   * up by FST1's number of states.
   */
  method AppendShifted<W>(fst1: VectorFst<W>, fst2: VectorFst<W>)
    requires fst1 != fst2
    modifies fst1
    ensures fst1.start == old(fst1.start)
    ensures fst1.states == old(fst1.states) + ShiftStates(fst2.states, |old(fst1.states)|)
  {
    ghost var s1 := fst1.states;
    var n1 := |fst1.states|;
    var s2 := 0;
    while s2 < |fst2.states|
      invariant 0 <= s2 <= |fst2.states|
      invariant fst1.start == old(fst1.start)
      invariant |fst1.states| == n1 + s2 && fst1.states[..n1] == s1
      invariant forall j :: n1 <= j < |fst1.states| ==> fst1.states[j] == ShiftState(fst2.states[j - n1], n1)
    {
      AddShiftedState(fst1, fst2.states[s2], n1);
      s2 := s2 + 1;
    }
    assert fst1.states == s1 + ShiftStates(fst2.states, n1);
  }

  /** One step of the copy loop: a new state holding a shifted copy of `st`. */
  method AddShiftedState<W>(fst1: VectorFst<W>, st: VectorFstState<W>, n1: nat)
    modifies fst1
    ensures fst1.start == old(fst1.start)
    ensures fst1.states == old(fst1.states) + [ShiftState(st, n1)]
  {
    ghost var before := fst1.states;
    var q := fst1.AddState();
    if st.final_weight.Some? {
      fst1.SetFinalUnchecked(q, st.final_weight.value);
    }
    var trs := st.trs;
    var k := 0;
    assert ShiftTrs(trs[..0], n1) == [];
    while k < |trs|
      invariant 0 <= k <= |trs|
      invariant fst1.start == old(fst1.start)
      invariant |fst1.states| == q + 1 && fst1.states[..q] == before
      invariant fst1.states[q] == VectorFstState(st.final_weight, ShiftTrs(trs[..k], n1))
    {
      fst1.AddTrUnchecked(q, trs[k].(nextstate := trs[k].nextstate + n1));
      assert ShiftTrs(trs[..k + 1], n1) == ShiftTrs(trs[..k], n1) + [trs[k].(nextstate := trs[k].nextstate + n1)];
      k := k + 1;
    }
    assert trs[..k] == trs;
    assert fst1.states == before + [fst1.states[q]];
  }

  /**
   * `concat(fst_1, fst_2)`: nothing changes when FST1 has no start;
   * otherwise FST1's states become `ConcatStates`, and its start stays.
   */
  method Concat<W>(fst1: VectorFst<W>, fst2: VectorFst<W>) returns (r: Result<()>)
    requires fst1 != fst2
    modifies fst1
    ensures r.Ok? && fst1.start == old(fst1.start)
    ensures old(fst1.start).None? ==> fst1.states == old(fst1.states)
    ensures old(fst1.start).Some? ==> fst1.states == ConcatStates(old(fst1.states), fst2.states, fst2.start)
  {
    r := Ok(());
    if fst1.start.None? {
      return;
    }
    ghost var s1 := fst1.states;
    var n1 := |fst1.states|;
    AppendShifted(fst1, fst2);
    assert forall j :: n1 <= j < |fst1.states| ==> fst1.states[j] == ShiftStates(fst2.states, n1)[j - n1];
    var start2 := fst2.start;
    var s := 0;
    while s < n1
      invariant 0 <= s <= n1
      invariant fst1.start == old(fst1.start)
      invariant |fst1.states| == n1 + |fst2.states|
      invariant forall i :: 0 <= i < s ==> fst1.states[i] == CloseFinal(s1[i], start2, n1)
      invariant forall i :: s <= i < n1 ==> fst1.states[i] == s1[i]
      invariant forall j :: n1 <= j < |fst1.states| ==> fst1.states[j] == ShiftState(fst2.states[j - n1], n1)
    {
      var fw := fst1.states[s].final_weight;
      if fw.Some? {
        if start2.Some? {
          fst1.AddTrUnchecked(s, Tr(EPS_LABEL, EPS_LABEL, fw.value, start2.value + n1));
        }
        fst1.DeleteFinalWeightUnchecked(s);
      }
      s := s + 1;
    }
    assert fst1.states == ConcatStates(s1, fst2.states, start2);
  }

  /**
   * The shape of the result: FST1's states come first and keep their
   * transitions, followed by FST2's states with every destination moved up
   * by the number of FST1's states; the final states are exactly the copies
   * of FST2's final states, with the same weights.
   */
  lemma ConcatShape<W>(s1: seq<VectorFstState<W>>, s2: seq<VectorFstState<W>>, start2: Option<StateId>)
    ensures |ConcatStates(s1, s2, start2)| == |s1| + |s2|
    ensures forall i :: 0 <= i < |s1| ==>
              ConcatStates(s1, s2, start2)[i].trs[..|s1[i].trs|] == s1[i].trs
    ensures forall i :: 0 <= i < |s1| + |s2| ==>
              ConcatStates(s1, s2, start2)[i].final_weight ==
                (if i < |s1| then None else s2[i - |s1|].final_weight)
    ensures forall j, k :: |s1| <= j < |s1| + |s2| && 0 <= k < |s2[j - |s1|].trs| ==>
              ConcatStates(s1, s2, start2)[j].trs[k] ==
                s2[j - |s1|].trs[k].(nextstate := s2[j - |s1|].trs[k].nextstate + |s1|)
  {
    var r := ConcatStates(s1, s2, start2);
    forall i | 0 <= i < |s1| ensures r[i].trs[..|s1[i].trs|] == s1[i].trs {
      assert r[i] == CloseFinal(s1[i], start2, |s1|);
    }
  }

  /**
   * The bridge between the two: a state of FST1 gets one new transition,
   * epsilon on both sides, to the copy of FST2's start and weighted by its
   * old final weight, exactly when it was final and FST2 has a start.
   */
  lemma ConcatBridge<W>(s1: seq<VectorFstState<W>>, s2: seq<VectorFstState<W>>, start2: Option<StateId>, i: nat)
    requires i < |s1|
    ensures |ConcatStates(s1, s2, start2)[i].trs| ==
              |s1[i].trs| + if s1[i].final_weight.Some? && start2.Some? then 1 else 0
    ensures s1[i].final_weight.Some? && start2.Some? ==>
              ConcatStates(s1, s2, start2)[i].trs[|s1[i].trs|] ==
                Tr(EPS_LABEL, EPS_LABEL, s1[i].final_weight.value, start2.value + |s1|)
  {
  }

  /**
   * Concatenation keeps an FST well formed: with both inputs' transitions
   * and FST2's start in range, every transition of the result leads to an
   * existing state.
   */
  lemma ConcatInRange<W>(s1: seq<VectorFstState<W>>, s2: seq<VectorFstState<W>>, start2: Option<StateId>)
    requires TrsInRange(s1) && TrsInRange(s2) && StartInRange(s2, start2)
    ensures TrsInRange(ConcatStates(s1, s2, start2))
  {
    var r := ConcatStates(s1, s2, start2);
    forall s, k | 0 <= s < |r| && 0 <= k < |r[s].trs| ensures r[s].trs[k].nextstate < |r| {
      if s < |s1| {
        assert r[s] == CloseFinal(s1[s], start2, |s1|);
        if k < |s1[s].trs| {
          assert r[s].trs[k] == s1[s].trs[k];
        }
      } else {
        assert r[s] == ShiftState(s2[s - |s1|], |s1|);
      }
    }
  }
}
