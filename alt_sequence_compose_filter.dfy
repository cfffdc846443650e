/**
 * `AltSequenceComposeFilter`: the mirror image of the sequence filter. It
 * lets composition read the epsilons of FST2 before those of FST1: filter
 * state 1 means FST1 has moved alone while FST2's state had epsilons left,
 * which from then on may not be taken.
 */
module AltSequenceComposeFilters {
  import opened Wrappers
  import opened FstTypes
  import opened FilterStates

  /**
   * `filter_tr` on the cached facts about FST2's state: an FST1 epsilon
   * move is blocked when FST2's state only has epsilons and is not final,
   * an FST2 epsilon move is blocked in state 1, an epsilon match is blocked
   * and a label match resets to 0.
   */
  function AltSequenceFilter(fs: IntegerFilterState, alleps2: bool, noeps2: bool, olabel1: Label, ilabel2: Label)
    : IntegerFilterState
  {
    if ilabel2 == NO_LABEL then
      if alleps2 then NO_FILTER_STATE
      else if noeps2 then IntegerFilterState(0)
      else IntegerFilterState(1)
    else if olabel1 == NO_LABEL then
      if fs == IntegerFilterState(1) then NO_FILTER_STATE else IntegerFilterState(0)
    else if olabel1 == EPS_LABEL then NO_FILTER_STATE
    else IntegerFilterState(0)
  }

  /** The filter applied to one move of a run. */
  function AltSequenceStep(fs: IntegerFilterState, st: Step): IntegerFilterState
  {
    AltSequenceFilter(fs, st.alleps2, st.noeps2, st.olabel1, st.ilabel2)
  }

  class AltSequenceComposeFilter<W> {
    const fst2: seq<VectorFstState<W>>
    var s1: StateId
    var s2: StateId
    var fs: IntegerFilterState
    var alleps2: bool
    var noeps2: bool

    /** A filter that has seen no state pair yet. */
    constructor (fst2: seq<VectorFstState<W>>)
      ensures this.fst2 == fst2
      ensures s1 == NO_STATE_ID && s2 == NO_STATE_ID && fs == NO_FILTER_STATE && !alleps2 && !noeps2
    {
      this.fst2 := fst2;
      s1 := NO_STATE_ID;
      s2 := NO_STATE_ID;
      fs := NO_FILTER_STATE;
      alleps2 := false;
      noeps2 := false;
    }

    /**
     * The filter state of the start pair: the state a label match returns
     * to, in which FST2 may still move alone on an input epsilon.
     */
    function Start(): (r: IntegerFilterState)
      ensures forall fs, st :: MoveOf(st) == LabelMatch ==> AltSequenceStep(fs, st) == r
      ensures forall st :: Possible(st) && MoveOf(st) == Fst2Eps ==> AltSequenceStep(r, st) != NO_FILTER_STATE
    {
      IntegerFilterState(0)
    }

    /**
     * Moves to the pair (`s1`, `s2`) in filter state `fs`. Only a different
     * triple refreshes the cached facts about FST2's state `s2`: all of its
     * transitions read epsilon and it is not final (`alleps2`), none does
     * (`noeps2`). A state FST2 does not have is an error, raised after the
     * triple is recorded.
     */
    method SetState(s1: StateId, s2: StateId, fs: IntegerFilterState) returns (r: Result<()>)
      modifies this
      ensures (s1, s2, fs) == old((this.s1, this.s2, this.fs)) ==>
                r.Ok? && alleps2 == old(alleps2) && noeps2 == old(noeps2)
      ensures this.s1 == s1 && this.s2 == s2 && this.fs == fs
      ensures (s1, s2, fs) != old((this.s1, this.s2, this.fs)) && s2 < |fst2| ==>
                && r.Ok?
                && alleps2 == AllEps(|fst2[s2].trs|, CountIEps(fst2[s2].trs), fst2[s2].final_weight.Some?)
                && noeps2 == (CountIEps(fst2[s2].trs) == 0)
      ensures (s1, s2, fs) != old((this.s1, this.s2, this.fs)) && s2 >= |fst2| ==>
                r.Err? && alleps2 == old(alleps2) && noeps2 == old(noeps2)
    {
      r := Ok(());
      if !(this.s1 == s1 && this.s2 == s2 && this.fs == fs) {
        this.s1 := s1;
        this.s2 := s2;
        this.fs := fs;
        if s2 >= |fst2| {
          return Err("State doesn't exist");
        }
        var na2 := |fst2[s2].trs|;
        var ne2 := CountIEps(fst2[s2].trs);
        var fin2 := fst2[s2].final_weight.Some?;
        alleps2 := na2 == ne2 && !fin2;
        noeps2 := ne2 == 0;
      }
    }

    /**
     * `filter_tr` in the current filter state. When FST1 moves alone
     * (`arc2.ilabel == NO_LABEL`) the move is blocked exactly when FST2's
     * state has only input epsilons and is not final, and it leads to state
     * 1 exactly when FST2's state still has epsilons besides other ways out.
     * When FST2 moves alone the move is blocked exactly in state 1. A match
     * is blocked exactly when it is an epsilon match. State 1 is reached
     * only by FST1 moving alone.
     */
    function FilterTr(arc1: Tr<W>, arc2: Tr<W>): (r: IntegerFilterState)
      reads this
      ensures r == IntegerFilterState(0) || r == IntegerFilterState(1) || r == NO_FILTER_STATE
      ensures arc2.ilabel == NO_LABEL ==>
                (r == NO_FILTER_STATE <==> alleps2) && (r == IntegerFilterState(1) <==> !alleps2 && !noeps2)
      ensures arc2.ilabel != NO_LABEL && arc1.olabel == NO_LABEL ==>
                (r == NO_FILTER_STATE <==> fs == IntegerFilterState(1)) && r != IntegerFilterState(1)
      ensures arc2.ilabel != NO_LABEL && arc1.olabel != NO_LABEL ==>
                (r == NO_FILTER_STATE <==> arc1.olabel == EPS_LABEL) && r != IntegerFilterState(1)
    {
      AltSequenceFilter(fs, alleps2, noeps2, arc1.olabel, arc2.ilabel)
    }
  }

  /**
   * After an FST1 epsilon move, filter state 1, or state 0 with no epsilon
   * left on FST2's side, lets no FST2 epsilon move through before a label
   * match.
   */
  lemma {:induction false} AltSequencePending(fs: IntegerFilterState, steps: seq<Step>)
    requires Physical(steps) && Allowed(AltSequenceStep, fs, steps)
    requires steps != [] ==> fs == IntegerFilterState(1) || (fs == IntegerFilterState(0) && steps[0].noeps2)
    ensures NoneUntilMatch(Fst2Eps, steps)
    decreases |steps|
  {
    if steps != [] && MoveOf(steps[0]) == Fst1Eps {
      AltSequencePending(AltSequenceStep(fs, steps[0]), steps[1..]);
    }
  }

  /**
   * The filter's discipline over any run it lets through: FST2 epsilons come
   * before FST1 epsilons (no FST2 epsilon follows an FST1 epsilon before a
   * label match), and an epsilon-to-epsilon match is never taken.
   */
  lemma {:induction false} AltSequenceFilterOrder(fs: IntegerFilterState, steps: seq<Step>)
    requires Physical(steps) && Allowed(AltSequenceStep, fs, steps)
    ensures NeverAfter(Fst1Eps, Fst2Eps, steps)
    ensures Never(EpsMatch, steps)
    decreases |steps|
  {
    if steps != [] {
      var next := AltSequenceStep(fs, steps[0]);
      AltSequenceFilterOrder(next, steps[1..]);
      if MoveOf(steps[0]) == Fst1Eps {
        AltSequencePending(next, steps[1..]);
      }
      forall i | 0 <= i < |steps| ensures MoveOf(steps[i]) != EpsMatch {
        if i > 0 {
          assert steps[i] == steps[1..][i - 1];
        }
      }
    }
  }
}
