/**
 * `SortedMatcher`: finds the transitions of a state that carry a given
 * label by binary search, which is only right when the transitions are
 * sorted on the matched side. `match_type` therefore reads the sortedness
 * bits of the FST's properties.
 */
module SortedMatchers {
  import opened Wrappers
  import opened FstTypes
  import opened FstProperties
  import opened ComputeFstProperties

  datatype MatchType = MatchInput | MatchOutput | MatchBoth | MatchNone | MatchUnknown

  /** What the matcher's iterator yields: a transition, or the implicit epsilon self-loop. */
  datatype IterItemMatcher<W> = MatchedTr(tr: Tr<W>) | EpsLoop

  /**
   * `match_type` given the properties the FST reports (the stored ones, or
   * the computed ones when `test` is set): the matcher's own type when the
   * matched side is known sorted, `MatchNone` when it is known unsorted,
   * `MatchUnknown` otherwise.
   */
  function MatchTypeOf(matchType: MatchType, props: Props): (r: MatchType)
    ensures r == matchType || r == MatchNone || r == MatchUnknown
    ensures matchType == MatchInput ==>
              && (r == MatchInput <==> I_LABEL_SORTED in props)
              && (r == MatchNone <==> I_LABEL_SORTED !in props && NOT_I_LABEL_SORTED in props)
    ensures matchType == MatchOutput ==>
              && (r == MatchOutput <==> O_LABEL_SORTED in props)
              && (r == MatchNone <==> O_LABEL_SORTED !in props && NOT_O_LABEL_SORTED in props)
  {
    if matchType == MatchNone then matchType
    else
      var trueProp := if matchType == MatchInput then I_LABEL_SORTED else O_LABEL_SORTED;
      var falseProp := if matchType == MatchInput then NOT_I_LABEL_SORTED else NOT_O_LABEL_SORTED;
      if trueProp in props then matchType
      else if falseProp in props then MatchNone
      else MatchUnknown
  }

  /**
   * On the properties `compute_fst_properties` returns, matching on input
   * labels is never unknown: it is granted exactly when every state's
   * transitions are sorted by input label, and refused otherwise.
   */
  lemma MatchInputOnComputed<W>(r: Props, states: seq<VectorFstState<W>>, start: Option<StateId>, zero: W, one: W,
                                dfsProps: Props, scc: seq<nat>)
    requires Computed(r, states, start, zero, one, dfsProps, scc)
    ensures MatchTypeOf(MatchInput, r) ==
              if forall s, k :: 0 <= s < |states| && 0 < k < |states[s].trs| ==>
                   states[s].trs[k - 1].ilabel <= states[s].trs[k].ilabel
              then MatchInput else MatchNone
  {
    ILabelSortedBits(r, states, start, zero, one, dfsProps, scc);
  }

  /** The same for matching on output labels. */
  lemma MatchOutputOnComputed<W>(r: Props, states: seq<VectorFstState<W>>, start: Option<StateId>, zero: W, one: W,
                                 dfsProps: Props, scc: seq<nat>)
    requires Computed(r, states, start, zero, one, dfsProps, scc)
    ensures MatchTypeOf(MatchOutput, r) ==
              if forall s, k :: 0 <= s < |states| && 0 < k < |states[s].trs| ==>
                   states[s].trs[k - 1].olabel <= states[s].trs[k].olabel
              then MatchOutput else MatchNone
  {
    OLabelSortedBits(r, states, start, zero, one, dfsProps, scc);
  }

  /** `priority`: the number of transitions of the state; a missing state is an error. */
  function Priority<W>(states: seq<VectorFstState<W>>, s: StateId): (r: Result<nat>)
    ensures r.Ok? <==> s < |states|
  {
    if s < |states| then Ok(|states[s].trs|) else Err("State doesn't exist")
  }

  // ---------------------------------------------------------------------------
  // The iterator.

  predicate SidedMatch(matchType: MatchType)
  {
    matchType == MatchInput || matchType == MatchOutput
  }

  /** `get_label`: the label on the matched side. */
  function GetLabel<W>(tr: Tr<W>, matchType: MatchType): (l: Label)
    requires SidedMatch(matchType)
    ensures matchType == MatchInput ==> l == tr.ilabel
    ensures matchType == MatchOutput ==> l == tr.olabel
  {
    if matchType == MatchInput then tr.ilabel else tr.olabel
  }

  /** The transitions are sorted on the matched side. */
  predicate SortedOn<W>(trs: seq<Tr<W>>, matchType: MatchType)
    requires SidedMatch(matchType)
  {
    forall i, j :: 0 <= i < j < |trs| ==> GetLabel(trs[i], matchType) <= GetLabel(trs[j], matchType)
  }

  /** The transitions from `i` on that carry `lab`, in order: what a matcher should yield. */
  function MatchingFrom<W>(trs: seq<Tr<W>>, i: nat, lab: Label, matchType: MatchType): seq<IterItemMatcher<W>>
    requires SidedMatch(matchType)
    decreases |trs| - i
  {
    if i >= |trs| then []
    else (if GetLabel(trs[i], matchType) == lab then [MatchedTr(trs[i])] else [])
         + MatchingFrom(trs, i + 1, lab, matchType)
  }

  /** The transitions from `pos` on that carry `lab`, up to the first that does not: what `next` yields. */
  function RunFrom<W>(trs: seq<Tr<W>>, pos: nat, lab: Label, matchType: MatchType): seq<IterItemMatcher<W>>
    requires SidedMatch(matchType)
    decreases |trs| - pos
  {
    if pos < |trs| && GetLabel(trs[pos], matchType) == lab then [MatchedTr(trs[pos])] + RunFrom(trs, pos + 1, lab, matchType)
    else []
  }

  /**
   * `lower_bound_by` on the matched label (superslice's binary search is not
   * part of this model; this is a binary search with the same result on
   * sorted transitions): the first position whose label is not below `lab`.
   */
  method LowerBound<W>(trs: seq<Tr<W>>, lab: Label, matchType: MatchType) returns (pos: nat)
    requires SidedMatch(matchType)
    ensures pos <= |trs|
    ensures SortedOn(trs, matchType) ==>
              && (forall j :: 0 <= j < pos ==> GetLabel(trs[j], matchType) < lab)
              && (forall j :: pos <= j < |trs| ==> GetLabel(trs[j], matchType) >= lab)
  {
    var lo, hi := 0, |trs|;
    while lo < hi
      invariant 0 <= lo <= hi <= |trs|
      invariant SortedOn(trs, matchType) ==>
                  && (forall j :: 0 <= j < lo ==> GetLabel(trs[j], matchType) < lab)
                  && (forall j :: hi <= j < |trs| ==> GetLabel(trs[j], matchType) >= lab)
    {
      var mid := (lo + hi) / 2;
      if GetLabel(trs[mid], matchType) < lab {
        lo := mid + 1;
      } else {
        hi := mid;
      }
    }
    pos := lo;
  }

  lemma {:induction false} MatchingFromNone<W>(trs: seq<Tr<W>>, i: nat, lab: Label, matchType: MatchType)
    requires SidedMatch(matchType)
    requires forall j :: i <= j < |trs| ==> GetLabel(trs[j], matchType) != lab
    ensures MatchingFrom(trs, i, lab, matchType) == []
    decreases |trs| - i
  {
    if i < |trs| {
      MatchingFromNone(trs, i + 1, lab, matchType);
    }
  }

  lemma {:induction false} MatchingFromSkip<W>(trs: seq<Tr<W>>, i: nat, pos: nat, lab: Label, matchType: MatchType)
    requires SidedMatch(matchType) && i <= pos <= |trs|
    requires forall j :: i <= j < pos ==> GetLabel(trs[j], matchType) != lab
    ensures MatchingFrom(trs, i, lab, matchType) == MatchingFrom(trs, pos, lab, matchType)
    decreases pos - i
  {
    if i < pos {
      MatchingFromSkip(trs, i + 1, pos, lab, matchType);
    }
  }

  lemma {:induction false} RunFromSorted<W>(trs: seq<Tr<W>>, pos: nat, lab: Label, matchType: MatchType)
    requires SidedMatch(matchType) && SortedOn(trs, matchType) && pos <= |trs|
    requires forall j :: pos <= j < |trs| ==> GetLabel(trs[j], matchType) >= lab
    ensures RunFrom(trs, pos, lab, matchType) == MatchingFrom(trs, pos, lab, matchType)
    decreases |trs| - pos
  {
    if pos < |trs| {
      if GetLabel(trs[pos], matchType) == lab {
        RunFromSorted(trs, pos + 1, lab, matchType);
      } else {
        MatchingFromNone(trs, pos, lab, matchType);
      }
    }
  }

  /**
   * On sorted transitions, the run that starts at the lower bound of
   * `lab` holds every transition with that label, in order, and nothing
   * else.
   */
  lemma RunIsMatching<W>(trs: seq<Tr<W>>, pos: nat, lab: Label, matchType: MatchType)
    requires SidedMatch(matchType) && SortedOn(trs, matchType) && pos <= |trs|
    requires forall j :: 0 <= j < pos ==> GetLabel(trs[j], matchType) < lab
    requires forall j :: pos <= j < |trs| ==> GetLabel(trs[j], matchType) >= lab
    ensures RunFrom(trs, pos, lab, matchType) == MatchingFrom(trs, 0, lab, matchType)
  {
    MatchingFromSkip(trs, 0, pos, lab, matchType);
    RunFromSorted(trs, pos, lab, matchType);
  }

  class IteratorSortedMatcher<W> {
    const trs: seq<Tr<W>>
    const matchLabel: Label
    const matchType: MatchType
    var pos: nat
    var currentLoop: bool

    ghost predicate Valid()
      reads this
    {
      SidedMatch(matchType) && pos <= |trs|
    }

    /** What the iterator still has to yield. */
    ghost function Remaining(): seq<IterItemMatcher<W>>
      reads this
      requires Valid()
    {
      (if currentLoop then [EpsLoop] else []) + RunFrom(trs, pos, matchLabel, matchType)
    }

    /**
     * `IteratorSortedMatcher::new`: matching epsilon first yields the
     * implicit epsilon loop and then scans from position 0; `NO_LABEL` is
     * matched as epsilon but without the loop; any other label starts at
     * its lower bound. On sorted transitions the iterator then yields
     * exactly the transitions carrying the label, after the loop if any.
     */
    constructor (trs: seq<Tr<W>>, matchLabel: Label, matchType: MatchType)
      requires SidedMatch(matchType)
      ensures Valid() && this.trs == trs && this.matchType == matchType
      ensures currentLoop == (matchLabel == EPS_LABEL)
      ensures this.matchLabel == if matchLabel == NO_LABEL then EPS_LABEL else matchLabel
      ensures matchLabel == EPS_LABEL ==> pos == 0
      ensures SortedOn(trs, matchType) ==>
                Remaining() == (if matchLabel == EPS_LABEL then [EpsLoop] else []) +
                               MatchingFrom(trs, 0, this.matchLabel, matchType)
    {
      var loop := matchLabel == EPS_LABEL;
      var lab := if matchLabel == NO_LABEL then EPS_LABEL else matchLabel;
      var p := 0;
      if !loop {
        p := LowerBound(trs, lab, matchType);
      }
      this.trs := trs;
      this.matchLabel := lab;
      this.matchType := matchType;
      pos := p;
      currentLoop := loop;
      new;
      if SortedOn(trs, matchType) {
        RunIsMatching(trs, p, lab, matchType);
      }
    }

    /**
     * `next`: the loop first if it is pending, then the transition at `pos`
     * if it carries the label; `None` at the first one that does not.
     */
    method Next() returns (r: Option<IterItemMatcher<W>>)
      requires Valid()
      modifies this
      ensures Valid()
      ensures r.Some? ==> old(Remaining()) == [r.value] + Remaining()
      ensures r.None? ==> old(Remaining()) == [] && pos == old(pos) && currentLoop == old(currentLoop)
    {
      if currentLoop {
        currentLoop := false;
        return Some(EpsLoop);
      }
      if pos < |trs| {
        var tr := trs[pos];
        if GetLabel(tr, matchType) == matchLabel {
          pos := pos + 1;
          return Some(MatchedTr(tr));
        }
      }
      return None;
    }
  }
}
