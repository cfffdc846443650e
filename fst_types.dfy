/**
 * The vocabulary shared by the whole model: labels, state ids, transitions
 * (`Tr`) and the state record of a `VectorFst`.
 */
module FstTypes {
  import opened Wrappers

  /** `Label` and `StateId` are `usize` in rustfst. */
  type Label = nat
  type StateId = nat

  /** Label 0 is epsilon. */
  const EPS_LABEL: Label := 0
  /** `usize::MAX`, the label the matchers use for an implicit epsilon loop. */
  const NO_LABEL: Label := 0xFFFF_FFFF_FFFF_FFFF
  /** `usize::MAX`, the id of no state. */
  const NO_STATE_ID: StateId := 0xFFFF_FFFF_FFFF_FFFF

  /** A transition: input label, output label, weight and destination state. */
  datatype Tr<W> = Tr(ilabel: Label, olabel: Label, weight: W, nextstate: StateId)

  /** A state of a `VectorFst`: its final weight, if final, and its outgoing transitions. */
  datatype VectorFstState<W> = VectorFstState(final_weight: Option<W>, trs: seq<Tr<W>>)

  /** A state with no final weight and no transitions, as `VectorFstState::new` makes it. */
  function EmptyState<W>(): VectorFstState<W>
  {
    VectorFstState(None, [])
  }

  /** Every transition of every state leads to an existing state. */
  predicate TrsInRange<W>(states: seq<VectorFstState<W>>)
  {
    forall s, k :: 0 <= s < |states| && 0 <= k < |states[s].trs| ==>
      states[s].trs[k].nextstate < |states|
  }

  /** The start state, when there is one, exists. */
  predicate StartInRange<W>(states: seq<VectorFstState<W>>, start: Option<StateId>)
  {
    start.Some? ==> start.value < |states|
  }

  /** Number of transitions whose input label is epsilon. */
  function CountIEps<W>(trs: seq<Tr<W>>): nat
  {
    if trs == [] then 0
    else CountIEps(trs[..|trs| - 1]) + (if trs[|trs| - 1].ilabel == EPS_LABEL then 1 else 0)
  }

  /** Number of transitions whose output label is epsilon. */
  function CountOEps<W>(trs: seq<Tr<W>>): nat
  {
    if trs == [] then 0
    else CountOEps(trs[..|trs| - 1]) + (if trs[|trs| - 1].olabel == EPS_LABEL then 1 else 0)
  }
}
