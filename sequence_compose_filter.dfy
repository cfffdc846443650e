/**
 * `SequenceComposeFilter`: lets composition read the epsilons of FST1
 * before those of FST2. Filter state 0 still allows FST1 epsilons; state 1
 * means FST2 has moved alone while FST1's state had epsilons left, which
 * from then on may not be taken.
 */
module SequenceComposeFilters {
  import opened Wrappers
  import opened FstTypes
  import opened FilterStates

  /**
   * `filter_tr` on the cached facts about FST1's state: an FST2 epsilon
   * move is blocked when FST1's state only has epsilons and is not final,
   * an FST1 epsilon move only goes through from state 0, an epsilon match
   * is blocked and a label match resets to 0.
   */
  function SequenceFilter(fs: IntegerFilterState, alleps1: bool, noeps1: bool, olabel1: Label, ilabel2: Label)
    : IntegerFilterState
  {
    if olabel1 == NO_LABEL then
      if alleps1 then NO_FILTER_STATE
      else if noeps1 then IntegerFilterState(0)
      else IntegerFilterState(1)
    else if ilabel2 == NO_LABEL then
      if fs != IntegerFilterState(0) then NO_FILTER_STATE else IntegerFilterState(0)
    else if olabel1 == EPS_LABEL then NO_FILTER_STATE
    else IntegerFilterState(0)
  }

  /** The filter applied to one move of a run. */
  function SequenceStep(fs: IntegerFilterState, st: Step): IntegerFilterState
  {
    SequenceFilter(fs, st.alleps1, st.noeps1, st.olabel1, st.ilabel2)
  }

  class SequenceComposeFilter<W> {
    const fst1: seq<VectorFstState<W>>
    var s1: StateId
    var s2: StateId
    var fs: IntegerFilterState
    var alleps1: bool
    var noeps1: bool

    /** A filter that has seen no state pair yet. */
    constructor (fst1: seq<VectorFstState<W>>)
      ensures this.fst1 == fst1
      ensures s1 == NO_STATE_ID && s2 == NO_STATE_ID && fs == NO_FILTER_STATE && !alleps1 && !noeps1
    {
      this.fst1 := fst1;
      s1 := NO_STATE_ID;
      s2 := NO_STATE_ID;
      fs := NO_FILTER_STATE;
      alleps1 := false;
      noeps1 := false;
    }

    /**
     * The filter state of the start pair: the state a label match returns
     * to, in which FST1 may still move alone on an output epsilon.
     */
    function Start(): (r: IntegerFilterState)
      ensures forall fs, st :: MoveOf(st) == LabelMatch ==> SequenceStep(fs, st) == r
      ensures forall st :: Possible(st) && MoveOf(st) == Fst1Eps ==> SequenceStep(r, st) != NO_FILTER_STATE
    {
      IntegerFilterState(0)
    }

    /**
     * Moves to the pair (`s1`, `s2`) in filter state `fs`. Only a different
     * triple refreshes the cached facts about FST1's state `s1`: all of its
     * transitions output epsilon and it is not final (`alleps1`), none does
     * (`noeps1`). A state FST1 does not have is an error, raised after the
     * triple is recorded.
     */
    method SetState(s1: StateId, s2: StateId, fs: IntegerFilterState) returns (r: Result<()>)
      modifies this
      ensures (s1, s2, fs) == old((this.s1, this.s2, this.fs)) ==>
                r.Ok? && alleps1 == old(alleps1) && noeps1 == old(noeps1)
      ensures this.s1 == s1 && this.s2 == s2 && this.fs == fs
      ensures (s1, s2, fs) != old((this.s1, this.s2, this.fs)) && s1 < |fst1| ==>
                && r.Ok?
                && alleps1 == AllEps(|fst1[s1].trs|, CountOEps(fst1[s1].trs), fst1[s1].final_weight.Some?)
                && noeps1 == (CountOEps(fst1[s1].trs) == 0)
      ensures (s1, s2, fs) != old((this.s1, this.s2, this.fs)) && s1 >= |fst1| ==>
                r.Err? && alleps1 == old(alleps1) && noeps1 == old(noeps1)
    {
      r := Ok(());
      if !(this.s1 == s1 && this.s2 == s2 && this.fs == fs) {
        this.s1 := s1;
        this.s2 := s2;
        this.fs := fs;
        if s1 >= |fst1| {
          return Err("State doesn't exist");
        }
        var na1 := |fst1[s1].trs|;
        var ne1 := CountOEps(fst1[s1].trs);
        var fin1 := fst1[s1].final_weight.Some?;
        alleps1 := na1 == ne1 && !fin1;
        noeps1 := ne1 == 0;
      }
    }

    /**
     * `filter_tr` in the current filter state. When FST2 moves alone
     * (`arc1.olabel == NO_LABEL`) the move is blocked exactly when FST1's
     * state has only output epsilons and is not final, and it leads to
     * state 1 exactly when FST1's state still has epsilons besides other
     * ways out. When FST1 moves alone the move goes through only from
     * state 0. A match is blocked exactly when it is an epsilon match.
     * State 1 is reached only by FST2 moving alone.
     */
    function FilterTr(arc1: Tr<W>, arc2: Tr<W>): (r: IntegerFilterState)
      reads this
      ensures r == IntegerFilterState(0) || r == IntegerFilterState(1) || r == NO_FILTER_STATE
      ensures arc1.olabel == NO_LABEL ==>
                (r == NO_FILTER_STATE <==> alleps1) && (r == IntegerFilterState(1) <==> !alleps1 && !noeps1)
      ensures arc1.olabel != NO_LABEL && arc2.ilabel == NO_LABEL ==>
                (r == NO_FILTER_STATE <==> fs != IntegerFilterState(0)) && r != IntegerFilterState(1)
      ensures arc1.olabel != NO_LABEL && arc2.ilabel != NO_LABEL ==>
                (r == NO_FILTER_STATE <==> arc1.olabel == EPS_LABEL) && r != IntegerFilterState(1)
    {
      SequenceFilter(fs, alleps1, noeps1, arc1.olabel, arc2.ilabel)
    }
  }

  /**
   * After an FST2 epsilon move, filter state 1, or state 0 with no epsilon
   * left on FST1's side, lets no FST1 epsilon move through before a label
   * match.
   */
  lemma {:induction false} SequencePending(fs: IntegerFilterState, steps: seq<Step>)
    requires Physical(steps) && Allowed(SequenceStep, fs, steps)
    requires steps != [] ==> fs == IntegerFilterState(1) || (fs == IntegerFilterState(0) && steps[0].noeps1)
    ensures NoneUntilMatch(Fst1Eps, steps)
    decreases |steps|
  {
    if steps != [] && MoveOf(steps[0]) == Fst2Eps {
      SequencePending(SequenceStep(fs, steps[0]), steps[1..]);
    }
  }

  /**
   * The filter's discipline over any run it lets through: FST1 epsilons come
   * before FST2 epsilons (no FST1 epsilon follows an FST2 epsilon before a
   * label match), and an epsilon-to-epsilon match is never taken.
   */
  lemma {:induction false} SequenceFilterOrder(fs: IntegerFilterState, steps: seq<Step>)
    requires Physical(steps) && Allowed(SequenceStep, fs, steps)
    ensures NeverAfter(Fst2Eps, Fst1Eps, steps)
    ensures Never(EpsMatch, steps)
    decreases |steps|
  {
    if steps != [] {
      var next := SequenceStep(fs, steps[0]);
      SequenceFilterOrder(next, steps[1..]);
      if MoveOf(steps[0]) == Fst2Eps {
        SequencePending(next, steps[1..]);
      }
      forall i | 0 <= i < |steps| ensures MoveOf(steps[i]) != EpsMatch {
        if i > 0 {
          assert steps[i] == steps[1..][i - 1];
        }
      }
    }
  }
}
