/**
 * `transducer` and `acceptor`: the linear FST whose single path reads one
 * label list and writes another.
 */
module LabelsToFst {
  import opened Wrappers
  import opened FstTypes
  import opened FstProperties
  import opened ComputeFstProperties
  import opened VectorFsts

  /** `labels.get(idx).unwrap_or(&0)`: the label at `idx`, epsilon past the end. */
  function LabelAt(labels: seq<Label>, idx: nat): Label
  {
    if idx < |labels| then labels[idx] else EPS_LABEL
  }

  function Max(a: nat, b: nat): nat
  {
    if a < b then b else a
  }

  /**
   * The states of the linear FST: a chain 0 -> 1 -> ... -> n, the step out of
   * state `i` reading `ins[i]` and writing `outs[i]` (epsilon past the end
   * of the shorter list) with weight One, and only the last state final,
   * with `weight`.
   */
  function LinearStates<W>(ins: seq<Label>, outs: seq<Label>, one: W, weight: W): seq<VectorFstState<W>>
  {
    var n := Max(|ins|, |outs|);
    seq(n + 1, i requires 0 <= i <= n =>
      if i < n then VectorFstState(None, [Tr(LabelAt(ins, i), LabelAt(outs, i), one, i + 1)])
      else VectorFstState(Some(weight), []))
  }

  /**
   * `transducer(labels_input, labels_output, weight)`: a fresh FST, start 0,
   * built state by state.
   */
  method Transducer<W(==)>(one: W, ins: seq<Label>, outs: seq<Label>, weight: W) returns (fst: VectorFst<W>)
    ensures fresh(fst)
    ensures fst.start == Some(0)
    ensures fst.states == LinearStates(ins, outs, one, weight)
  {
    var maxSize := Max(|ins|, |outs|);
    fst := new VectorFst();
    var stateCour := fst.AddState();
    var ok := fst.SetStart(stateCour);
    var idx := 0;
    while idx < maxSize
      invariant 0 <= idx <= maxSize && stateCour == idx
      invariant fst.start == Some(0) && |fst.states| == idx + 1
      invariant forall i :: 0 <= i < idx ==> fst.states[i] == LinearStates(ins, outs, one, weight)[i]
      invariant fst.states[idx] == EmptyState()
    {
      var i := LabelAt(ins, idx);
      var o := LabelAt(outs, idx);
      var newState := fst.AddState();
      var added := fst.AddTr(stateCour, Tr(i, o, one, newState));
      stateCour := newState;
      idx := idx + 1;
    }
    var fin := fst.SetFinal(stateCour, weight);
  }

  /** `acceptor(labels, weight)`: the same chain, each step reading and writing the same label. */
  method Acceptor<W(==)>(one: W, labels: seq<Label>, weight: W) returns (fst: VectorFst<W>)
    ensures fresh(fst)
    ensures fst.start == Some(0)
    ensures fst.states == LinearStates(labels, labels, one, weight)
  {
    fst := new VectorFst();
    var stateCour := fst.AddState();
    var ok := fst.SetStart(stateCour);
    for idx := 0 to |labels|
      invariant stateCour == idx
      invariant fst.start == Some(0) && |fst.states| == idx + 1
      invariant forall i :: 0 <= i < idx ==> fst.states[i] == LinearStates(labels, labels, one, weight)[i]
      invariant fst.states[idx] == EmptyState()
    {
      var l := labels[idx];
      var newState := fst.AddState();
      var added := fst.AddTr(stateCour, Tr(l, l, one, newState));
      stateCour := newState;
    }
    var fin := fst.SetFinal(stateCour, weight);
  }

  /**
   * The linear FST has max(|ins|, |outs|) + 1 states; every state but the
   * last has exactly one transition, of weight One, to the next state,
   * carrying the labels at its position; only the last state is final, with
   * the given weight; every transition stays inside the FST.
   */
  lemma LinearShape<W>(ins: seq<Label>, outs: seq<Label>, one: W, weight: W)
    ensures var r := LinearStates(ins, outs, one, weight);
      && |r| == Max(|ins|, |outs|) + 1
      && TrsInRange(r)
      && (forall i :: 0 <= i < |r| - 1 ==>
            |r[i].trs| == 1 && r[i].trs[0].nextstate == i + 1 && r[i].trs[0].weight == one && r[i].final_weight.None?)
      && r[|r| - 1] == VectorFstState(Some(weight), [])
      && (forall i :: 0 <= i < |ins| ==> r[i].trs[0].ilabel == ins[i])
      && (forall i :: 0 <= i < |outs| ==> r[i].trs[0].olabel == outs[i])
      && (forall i :: |ins| <= i < |r| - 1 ==> r[i].trs[0].ilabel == EPS_LABEL)
      && (forall i :: |outs| <= i < |r| - 1 ==> r[i].trs[0].olabel == EPS_LABEL)
  {
  }

  /**
   * The properties computed for an acceptor built from labels include
   * `ACCEPTOR`: every transition reads what it writes.
   */
  lemma AcceptorIsAcceptor<W>(labels: seq<Label>, one: W, weight: W, r: Props, start: Option<StateId>,
                              zero: W, dfsProps: Props, scc: seq<nat>)
    requires Computed(r, LinearStates(labels, labels, one, weight), start, zero, one, dfsProps, scc)
    ensures ACCEPTOR in r && NOT_ACCEPTOR !in r
  {
    AcceptorBits(r, LinearStates(labels, labels, one, weight), start, zero, one, dfsProps, scc);
  }
}
