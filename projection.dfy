/**
 * `project`: turns a transducer into an acceptor by copying, on every
 * transition, the input label onto the output label (`ProjectInput`) or
 * the output label onto the input label (`ProjectOutput`), through each
 * state's mutable transition iterator.
 */
module Projections {
  import opened Wrappers
  import opened FstTypes
  import opened FstProperties
  import opened TrsIterMuts
  import opened VectorFsts
  import opened ComputeFstProperties

  datatype ProjectType = ProjectInput | ProjectOutput

  /** One transition, projected. */
  function ProjectTr<W>(tr: Tr<W>, pt: ProjectType): Tr<W>
  {
    if pt == ProjectInput then tr.(olabel := tr.ilabel) else tr.(ilabel := tr.olabel)
  }

  function ProjectTrs<W>(trs: seq<Tr<W>>, pt: ProjectType): seq<Tr<W>>
  {
    seq(|trs|, k requires 0 <= k < |trs| => ProjectTr(trs[k], pt))
  }

  /** The states after `project`. */
  function ProjectStates<W>(states: seq<VectorFstState<W>>, pt: ProjectType): seq<VectorFstState<W>>
  {
    seq(|states|, s requires 0 <= s < |states| => states[s].(trs := ProjectTrs(states[s].trs, pt)))
  }

  /**
   * `project(fst, project_type)`: every state's transitions are projected
   * one by one through a `TrsIterMut` over them; the start is unchanged.
   */
  method Project<W(==)>(zero: W, one: W, fst: VectorFst<W>, pt: ProjectType)
    modifies fst
    ensures fst.start == old(fst.start)
    ensures fst.states == ProjectStates(old(fst.states), pt)
  {
    ghost var s0 := fst.states;
    var state := 0;
    while state < |fst.states|
      invariant 0 <= state <= |fst.states| == |s0|
      invariant fst.start == old(fst.start)
      invariant forall s :: 0 <= s < state ==> fst.states[s] == s0[s].(trs := ProjectTrs(s0[s].trs, pt))
      invariant forall s :: state <= s < |s0| ==> fst.states[s] == s0[s]
    {
      var trs := fst.states[state].trs;
      var it := new TrsIterMut(zero, one, trs, {}, CountIEps(trs), CountOEps(trs));
      ProjectAll(it, pt);
      fst.SetTrsUnchecked(state, it.trs);
      state := state + 1;
    }
    assert fst.states == ProjectStates(s0, pt);
  }

  /** The inner loop of `project`: every transition the iterator holds, projected in place. */
  method ProjectAll<W(==)>(it: TrsIterMut<W>, pt: ProjectType)
    requires it.Valid()
    modifies it
    ensures it.Valid() && it.trs == ProjectTrs(old(it.trs), pt)
  {
    ghost var trs := it.trs;
    var idx := 0;
    while idx < it.Len()
      invariant it.Valid() && |it.trs| == |trs| && 0 <= idx <= |trs|
      invariant forall k :: 0 <= k < idx ==> it.trs[k] == ProjectTr(trs[k], pt)
      invariant forall k :: idx <= k < |trs| ==> it.trs[k] == trs[k]
    {
      var tr := it.trs[idx];
      if pt == ProjectInput {
        it.SetOlabelUnchecked(idx, tr.ilabel);
      } else {
        it.SetIlabelUnchecked(idx, tr.olabel);
      }
      idx := idx + 1;
    }
  }

  /**
   * After `project` every transition has equal input and output labels,
   * the kept side's label, and nothing else about the FST changes: the
   * number of states, the final weights, and each transition's weight and
   * destination.
   */
  lemma ProjectShape<W>(states: seq<VectorFstState<W>>, pt: ProjectType)
    ensures var r := ProjectStates(states, pt);
            && |r| == |states|
            && (forall s :: 0 <= s < |r| ==>
                  r[s].final_weight == states[s].final_weight && |r[s].trs| == |states[s].trs|)
            && (forall s, k :: 0 <= s < |r| && 0 <= k < |r[s].trs| ==>
                  && r[s].trs[k].ilabel == r[s].trs[k].olabel
                  && r[s].trs[k].ilabel == (if pt == ProjectInput then states[s].trs[k].ilabel else states[s].trs[k].olabel)
                  && r[s].trs[k].weight == states[s].trs[k].weight
                  && r[s].trs[k].nextstate == states[s].trs[k].nextstate)
  {
  }

  /** Projecting twice is projecting once. */
  lemma ProjectIdempotent<W>(states: seq<VectorFstState<W>>, pt: ProjectType)
    ensures ProjectStates(ProjectStates(states, pt), pt) == ProjectStates(states, pt)
  {
    var r := ProjectStates(states, pt);
    forall s | 0 <= s < |r| ensures ProjectStates(r, pt)[s] == r[s] {
      assert ProjectTrs(r[s].trs, pt) == r[s].trs;
    }
  }

  /**
   * What the property tests check: the properties computed for a projected
   * FST always include `ACCEPTOR`.
   */
  lemma ProjectedIsAcceptor<W>(states: seq<VectorFstState<W>>, pt: ProjectType, r: Props, start: Option<StateId>,
                               zero: W, one: W, dfsProps: Props, scc: seq<nat>)
    requires Computed(r, ProjectStates(states, pt), start, zero, one, dfsProps, scc)
    ensures ACCEPTOR in r && NOT_ACCEPTOR !in r
  {
    AcceptorBits(r, ProjectStates(states, pt), start, zero, one, dfsProps, scc);
  }
}
