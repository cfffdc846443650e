/**
 * `MatchComposeFilter`: keeps the epsilon moves of the two FSTs apart.
 * Filter state 1 means a run of FST1 epsilon moves is under way, state 2 a
 * run of FST2 epsilon moves; an epsilon-to-epsilon match is only taken
 * from state 0, and a label match brings the filter back to 0.
 */
module MatchComposeFilters {
  import opened Wrappers
  import opened FstTypes
  import opened FilterStates

  /** `filter_tr` on the cached facts about both states. */
  function MatchFilter(fs: IntegerFilterState, alleps1: bool, noeps1: bool, alleps2: bool, noeps2: bool,
                       olabel1: Label, ilabel2: Label): IntegerFilterState
  {
    if ilabel2 == NO_LABEL then
      if fs == IntegerFilterState(0) then
        if noeps2 then IntegerFilterState(0)
        else if alleps2 then NO_FILTER_STATE
        else IntegerFilterState(1)
      else if fs == IntegerFilterState(1) then IntegerFilterState(1)
      else NO_FILTER_STATE
    else if olabel1 == NO_LABEL then
      if fs == IntegerFilterState(0) then
        if noeps1 then IntegerFilterState(0)
        else if alleps1 then NO_FILTER_STATE
        else IntegerFilterState(2)
      else if fs == IntegerFilterState(2) then IntegerFilterState(2)
      else NO_FILTER_STATE
    else if olabel1 == EPS_LABEL then
      if fs == IntegerFilterState(0) then IntegerFilterState(0) else NO_FILTER_STATE
    else IntegerFilterState(0)
  }

  /** The filter applied to one move of a run. */
  function MatchStep(fs: IntegerFilterState, st: Step): IntegerFilterState
  {
    MatchFilter(fs, st.alleps1, st.noeps1, st.alleps2, st.noeps2, st.olabel1, st.ilabel2)
  }

  /** The filter only ever answers 0, 1, 2 or "blocked". */
  lemma MatchFilterRange(fs: IntegerFilterState, alleps1: bool, noeps1: bool, alleps2: bool, noeps2: bool,
                         olabel1: Label, ilabel2: Label)
    ensures MatchFilter(fs, alleps1, noeps1, alleps2, noeps2, olabel1, ilabel2) in
              {IntegerFilterState(0), IntegerFilterState(1), IntegerFilterState(2), NO_FILTER_STATE}
  {
  }

  class MatchComposeFilter<W> {
    const fst1: seq<VectorFstState<W>>
    const fst2: seq<VectorFstState<W>>
    var s1: StateId
    var s2: StateId
    var fs: IntegerFilterState
    var alleps1: bool
    var alleps2: bool
    var noeps1: bool
    var noeps2: bool

    /** A filter that has seen no state pair yet. */
    constructor (fst1: seq<VectorFstState<W>>, fst2: seq<VectorFstState<W>>)
      ensures this.fst1 == fst1 && this.fst2 == fst2
      ensures s1 == NO_STATE_ID && s2 == NO_STATE_ID && fs == NO_FILTER_STATE
      ensures !alleps1 && !alleps2 && !noeps1 && !noeps2
    {
      this.fst1 := fst1;
      this.fst2 := fst2;
      s1 := NO_STATE_ID;
      s2 := NO_STATE_ID;
      fs := NO_FILTER_STATE;
      alleps1 := false;
      alleps2 := false;
      noeps1 := false;
      noeps2 := false;
    }

    /**
     * The filter state of the start pair: the state a label match returns
     * to, the only one from which an epsilon match goes through.
     */
    function Start(): (r: IntegerFilterState)
      ensures forall fs, st :: MoveOf(st) == LabelMatch ==> MatchStep(fs, st) == r
      ensures forall fs, st :: MoveOf(st) == EpsMatch ==> (MatchStep(fs, st) != NO_FILTER_STATE <==> fs == r)
    {
      IntegerFilterState(0)
    }

    /**
     * Moves to the pair (`s1`, `s2`) in filter state `fs`. Only a different
     * triple refreshes the cached facts: FST1's state `s1` outputs only
     * epsilons and is not final (`alleps1`) or no epsilon (`noeps1`), and the
     * same for the input epsilons of FST2's state `s2`. A state either FST
     * does not have is an error, raised after the triple is recorded and
     * before any fact changes.
     */
    method SetState(s1: StateId, s2: StateId, fs: IntegerFilterState) returns (r: Result<()>)
      modifies this
      ensures (s1, s2, fs) == old((this.s1, this.s2, this.fs)) ==>
                r.Ok? && alleps1 == old(alleps1) && noeps1 == old(noeps1) &&
                alleps2 == old(alleps2) && noeps2 == old(noeps2)
      ensures this.s1 == s1 && this.s2 == s2 && this.fs == fs
      ensures (s1, s2, fs) != old((this.s1, this.s2, this.fs)) && s1 < |fst1| && s2 < |fst2| ==>
                && r.Ok?
                && alleps1 == AllEps(|fst1[s1].trs|, CountOEps(fst1[s1].trs), fst1[s1].final_weight.Some?)
                && alleps2 == AllEps(|fst2[s2].trs|, CountIEps(fst2[s2].trs), fst2[s2].final_weight.Some?)
                && noeps1 == (CountOEps(fst1[s1].trs) == 0)
                && noeps2 == (CountIEps(fst2[s2].trs) == 0)
      ensures (s1, s2, fs) != old((this.s1, this.s2, this.fs)) && (s1 >= |fst1| || s2 >= |fst2|) ==>
                r.Err? && alleps1 == old(alleps1) && noeps1 == old(noeps1) &&
                alleps2 == old(alleps2) && noeps2 == old(noeps2)
    {
      r := Ok(());
      if !(this.s1 == s1 && this.s2 == s2 && this.fs == fs) {
        this.s1 := s1;
        this.s2 := s2;
        this.fs := fs;
        if s1 >= |fst1| || s2 >= |fst2| {
          return Err("State doesn't exist");
        }
        var na1 := |fst1[s1].trs|;
        var na2 := |fst2[s2].trs|;
        var ne1 := CountOEps(fst1[s1].trs);
        var ne2 := CountIEps(fst2[s2].trs);
        var f1 := fst1[s1].final_weight.Some?;
        var f2 := fst2[s2].final_weight.Some?;
        alleps1 := na1 == ne1 && !f1;
        alleps2 := na2 == ne2 && !f2;
        noeps1 := ne1 == 0;
        noeps2 := ne2 == 0;
      }
    }

    /**
     * `filter_tr` in the current filter state. FST1 moving alone
     * (`arc2.ilabel == NO_LABEL`) goes on in state 1, starts a run (state 1)
     * from state 0 unless FST2's state has no input epsilon (then it stays
     * in 0) or only input epsilons and is not final (then it is blocked),
     * and is blocked in any other state; FST2 moving alone is the mirror
     * image with state 2. A match is blocked exactly when it is an epsilon
     * match outside state 0, and otherwise leads to 0.
     */
    function FilterTr(arc1: Tr<W>, arc2: Tr<W>): (r: IntegerFilterState)
      reads this
      ensures arc2.ilabel == NO_LABEL ==>
                && r != IntegerFilterState(2)
                && (fs == IntegerFilterState(1) ==> r == fs)
                && (fs == IntegerFilterState(0) ==>
                      (r == IntegerFilterState(0) <==> noeps2) && (r == NO_FILTER_STATE <==> alleps2 && !noeps2))
                && (fs != IntegerFilterState(0) && fs != IntegerFilterState(1) ==> r == NO_FILTER_STATE)
      ensures arc2.ilabel != NO_LABEL && arc1.olabel == NO_LABEL ==>
                && r != IntegerFilterState(1)
                && (fs == IntegerFilterState(2) ==> r == fs)
                && (fs == IntegerFilterState(0) ==>
                      (r == IntegerFilterState(0) <==> noeps1) && (r == NO_FILTER_STATE <==> alleps1 && !noeps1))
                && (fs != IntegerFilterState(0) && fs != IntegerFilterState(2) ==> r == NO_FILTER_STATE)
      ensures arc2.ilabel != NO_LABEL && arc1.olabel != NO_LABEL ==>
                (r == NO_FILTER_STATE <==> arc1.olabel == EPS_LABEL && fs != IntegerFilterState(0))
                && (r != NO_FILTER_STATE ==> r == IntegerFilterState(0))
    {
      MatchFilter(fs, alleps1, noeps1, alleps2, noeps2, arc1.olabel, arc2.ilabel)
    }
  }

  /**
   * During a run of FST1 epsilon moves (state 1, or state 0 with no input
   * epsilon on FST2's side) neither an FST2 epsilon move nor an epsilon
   * match goes through before a label match.
   */
  lemma {:induction false} MatchPending1(fs: IntegerFilterState, steps: seq<Step>)
    requires Physical(steps) && Allowed(MatchStep, fs, steps)
    requires steps != [] ==> fs == IntegerFilterState(1) || (fs == IntegerFilterState(0) && steps[0].noeps2)
    ensures NoneUntilMatch(Fst2Eps, steps) && NoneUntilMatch(EpsMatch, steps)
    decreases |steps|
  {
    if steps != [] && MoveOf(steps[0]) == Fst1Eps {
      MatchPending1(MatchStep(fs, steps[0]), steps[1..]);
    }
  }

  /** The mirror image of `MatchPending1` for a run of FST2 epsilon moves (state 2). */
  lemma {:induction false} MatchPending2(fs: IntegerFilterState, steps: seq<Step>)
    requires Physical(steps) && Allowed(MatchStep, fs, steps)
    requires steps != [] ==> fs == IntegerFilterState(2) || (fs == IntegerFilterState(0) && steps[0].noeps1)
    ensures NoneUntilMatch(Fst1Eps, steps) && NoneUntilMatch(EpsMatch, steps)
    decreases |steps|
  {
    if steps != [] && MoveOf(steps[0]) == Fst2Eps {
      MatchPending2(MatchStep(fs, steps[0]), steps[1..]);
    }
  }

  /**
   * The filter's discipline over any run it lets through: between two label
   * matches the epsilon moves are never mixed. After an FST1 epsilon move
   * neither an FST2 epsilon move nor an epsilon match follows, and the other
   * way round.
   */
  lemma {:induction false} MatchFilterOrder(fs: IntegerFilterState, steps: seq<Step>)
    requires Physical(steps) && Allowed(MatchStep, fs, steps)
    ensures NeverAfter(Fst1Eps, Fst2Eps, steps) && NeverAfter(Fst1Eps, EpsMatch, steps)
    ensures NeverAfter(Fst2Eps, Fst1Eps, steps) && NeverAfter(Fst2Eps, EpsMatch, steps)
    decreases |steps|
  {
    if steps != [] {
      var next := MatchStep(fs, steps[0]);
      MatchFilterOrder(next, steps[1..]);
      if MoveOf(steps[0]) == Fst1Eps {
        MatchPending1(next, steps[1..]);
      } else if MoveOf(steps[0]) == Fst2Eps {
        MatchPending2(next, steps[1..]);
      }
    }
  }
}
