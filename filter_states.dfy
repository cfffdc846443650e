/**
 * What the epsilon compose filters share: the integer filter state, the
 * per-state epsilon facts they cache, and runs of composition moves, over
 * which each filter's discipline is stated.
 *
 * During composition a move pairs a transition of FST1 with one of FST2.
 * When one side stays put, the matcher supplies an implicit self-loop whose
 * label is `NO_LABEL`: a loop on FST1 (`arc1.olabel == NO_LABEL`) means FST2
 * alone reads an input epsilon, a loop on FST2 (`arc2.ilabel == NO_LABEL`)
 * means FST1 alone writes an output epsilon.
 */
module FilterStates {
  import opened Wrappers
  import opened FstTypes

  /** `IntegerFilterState`: a small integer, with `NO_STATE_ID` meaning "move blocked". */
  datatype IntegerFilterState = IntegerFilterState(state: StateId)

  const NO_FILTER_STATE: IntegerFilterState := IntegerFilterState(NO_STATE_ID)

  // ---------------------------------------------------------------------------
  // The facts `set_state` caches about a state.

  /**
   * `na == ne && !final`: every transition of the state is an epsilon one
   * (on the side the count is about) and the state is not final.
   */
  predicate AllEps(numTrs: nat, numEps: nat, isFinal: bool)
  {
    numTrs == numEps && !isFinal
  }

  lemma {:induction false} CountOEpsBounds<W>(trs: seq<Tr<W>>)
    ensures CountOEps(trs) <= |trs|
    ensures CountOEps(trs) == 0 <==> forall k :: 0 <= k < |trs| ==> trs[k].olabel != EPS_LABEL
    ensures CountOEps(trs) == |trs| <==> forall k :: 0 <= k < |trs| ==> trs[k].olabel == EPS_LABEL
    decreases |trs|
  {
    if trs != [] {
      var p := trs[..|trs| - 1];
      CountOEpsBounds(p);
      assert forall k :: 0 <= k < |p| ==> p[k] == trs[k];
    }
  }

  lemma {:induction false} CountIEpsBounds<W>(trs: seq<Tr<W>>)
    ensures CountIEps(trs) <= |trs|
    ensures CountIEps(trs) == 0 <==> forall k :: 0 <= k < |trs| ==> trs[k].ilabel != EPS_LABEL
    ensures CountIEps(trs) == |trs| <==> forall k :: 0 <= k < |trs| ==> trs[k].ilabel == EPS_LABEL
    decreases |trs|
  {
    if trs != [] {
      var p := trs[..|trs| - 1];
      CountIEpsBounds(p);
      assert forall k :: 0 <= k < |p| ==> p[k] == trs[k];
    }
  }

  // ---------------------------------------------------------------------------
  // Runs of moves.

  /** The four kinds of move of composition, told apart by `arc1.olabel` and `arc2.ilabel`. */
  datatype Move = Fst1Eps | Fst2Eps | EpsMatch | LabelMatch

  /**
   * One move of a run, with the epsilon facts of the state pair it starts
   * from: `alleps1`/`noeps1` about the output epsilons of FST1's state,
   * `alleps2`/`noeps2` about the input epsilons of FST2's state.
   */
  datatype Step = Step(olabel1: Label, ilabel2: Label, alleps1: bool, noeps1: bool, alleps2: bool, noeps2: bool)

  function MoveOf(st: Step): Move
  {
    if st.olabel1 == NO_LABEL then Fst2Eps
    else if st.ilabel2 == NO_LABEL then Fst1Eps
    else if st.olabel1 == EPS_LABEL then EpsMatch
    else LabelMatch
  }

  /**
   * A move that can occur: the labels agree with its kind, and an epsilon
   * move on a side needs an epsilon transition there (so that side's
   * "no epsilons" fact is false).
   */
  predicate Possible(st: Step)
  {
    match MoveOf(st)
    case Fst1Eps => st.olabel1 == EPS_LABEL && !st.noeps1
    case Fst2Eps => st.ilabel2 == EPS_LABEL && !st.noeps2
    case EpsMatch => st.ilabel2 == EPS_LABEL && !st.noeps1 && !st.noeps2
    case LabelMatch => st.olabel1 == st.ilabel2 && st.ilabel2 != NO_LABEL
  }

  /** The side that stays put keeps its state, hence its epsilon facts. */
  predicate Continues(st: Step, next: Step)
  {
    && (MoveOf(st) == Fst2Eps ==> next.alleps1 == st.alleps1 && next.noeps1 == st.noeps1)
    && (MoveOf(st) == Fst1Eps ==> next.alleps2 == st.alleps2 && next.noeps2 == st.noeps2)
  }

  /** A run of moves composition can make, one after the other. */
  predicate Physical(steps: seq<Step>)
  {
    steps == [] ||
    (Possible(steps[0]) && (|steps| > 1 ==> Continues(steps[0], steps[1])) && Physical(steps[1..]))
  }

  /** Every move of the run is let through by the filter `f`, starting in filter state `fs`. */
  predicate Allowed(f: (IntegerFilterState, Step) -> IntegerFilterState, fs: IntegerFilterState, steps: seq<Step>)
    decreases |steps|
  {
    steps == [] ||
    (f(fs, steps[0]) != NO_FILTER_STATE && Allowed(f, f(fs, steps[0]), steps[1..]))
  }

  /** No move of kind `b` comes before the next label match. */
  predicate NoneUntilMatch(b: Move, steps: seq<Step>)
  {
    steps == [] || MoveOf(steps[0]) == LabelMatch || (MoveOf(steps[0]) != b && NoneUntilMatch(b, steps[1..]))
  }

  /** Once a move of kind `a` is made, no move of kind `b` follows until a label match. */
  predicate NeverAfter(a: Move, b: Move, steps: seq<Step>)
  {
    steps == [] ||
    ((MoveOf(steps[0]) == a ==> NoneUntilMatch(b, steps[1..])) && NeverAfter(a, b, steps[1..]))
  }

  /** No move of kind `b` occurs at all. */
  predicate Never(b: Move, steps: seq<Step>)
  {
    forall i :: 0 <= i < |steps| ==> MoveOf(steps[i]) != b
  }
}
