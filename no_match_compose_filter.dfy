/**
 * `NoMatchComposeFilter`: keeps no memory at all (its filter state is a
 * single flag) and only refuses to pair an output epsilon of FST1 with an
 * input epsilon of FST2.
 */
module NoMatchComposeFilters {
  import opened FstTypes
  import opened FstProperties
  import opened FilterStates

  /** `TrivialFilterState`: `false` means "move blocked". */
  datatype TrivialFilterState = TrivialFilterState(state: bool)

  /** The filter state of the start pair, which lets moves through. */
  function Start(): (r: TrivialFilterState)
    ensures r.state
  {
    TrivialFilterState(true)
  }

  /**
   * `filter_tr`: of the moves composition can make, the filter blocks
   * exactly the epsilon-to-epsilon matches, and it never depends on the
   * state pair.
   */
  function FilterTr<W>(arc1: Tr<W>, arc2: Tr<W>): (r: TrivialFilterState)
    ensures forall st: Step :: st.olabel1 == arc1.olabel && st.ilabel2 == arc2.ilabel && Possible(st) ==>
              (r.state <==> MoveOf(st) != EpsMatch)
  {
    TrivialFilterState(arc1.olabel != EPS_LABEL || arc2.ilabel != EPS_LABEL)
  }

  /** `properties`: the filter claims nothing and withdraws nothing. */
  function Properties(inprops: Props): (r: Props)
    ensures forall p :: p in r <==> p in inprops
  {
    inprops
  }

  /**
   * Of the moves composition can make, the filter blocks exactly the
   * epsilon-to-epsilon matches: single-sided epsilon moves (paired with the
   * matcher's `NO_LABEL` loop) and label matches all go through.
   */
  lemma NoMatchFilterBlocksEpsMatch<W>(arc1: Tr<W>, arc2: Tr<W>, st: Step)
    requires st.olabel1 == arc1.olabel && st.ilabel2 == arc2.ilabel && Possible(st)
    ensures FilterTr(arc1, arc2).state <==> MoveOf(st) != EpsMatch
  {
  }
}
