/**
 * `tr_map`: replaces every transition of an FST by the mapper's image of
 * it, and maps every final weight as a pseudo-transition `FinalTr` whose
 * image becomes a final weight again or a transition to a superfinal
 * state, as the mapper's `MapFinalAction` says.
 */
module TrMaps {
  import opened Wrappers
  import opened FstTypes
  import opened TrsIterMuts
  import opened VectorFsts

  datatype MapFinalAction = MapNoSuperfinal | MapAllowSuperfinal | MapRequireSuperfinal

  /** A final weight seen as a transition: labels epsilon at first, weight the final weight. */
  datatype FinalTr<W> = FinalTr(ilabel: Label, olabel: Label, weight: W)

  /**
   * A `TrMapper`: the image of a transition, the image of a final
   * pseudo-transition, and the final action. Mappers that fail or keep
   * state of their own are not part of this model.
   */
  datatype TrMapper<!W> = TrMapper(trMap: Tr<W> -> Tr<W>, finalTrMap: FinalTr<W> -> FinalTr<W>, finalAction: MapFinalAction)

  /** The image of the final weight `w`. */
  function MappedFinal<W>(m: TrMapper<W>, w: W): FinalTr<W>
  {
    m.finalTrMap(FinalTr(EPS_LABEL, EPS_LABEL, w))
  }

  /** An image that cannot stay a final weight, because it carries a label. */
  predicate Labelled<W>(ft: FinalTr<W>)
  {
    ft.ilabel != EPS_LABEL || ft.olabel != EPS_LABEL
  }

  function MapTrs<W>(trs: seq<Tr<W>>, f: Tr<W> -> Tr<W>): seq<Tr<W>>
  {
    seq(|trs|, k requires 0 <= k < |trs| => f(trs[k]))
  }

  /** State `s` is final and the image of its final weight carries a label. */
  predicate LabelledAt<W>(states: seq<VectorFstState<W>>, s: nat, m: TrMapper<W>)
    requires s < |states|
  {
    states[s].final_weight.Some? && Labelled(MappedFinal(m, states[s].final_weight.value))
  }

  /** A superfinal state is added: always under `MapRequireSuperfinal`, on demand under `MapAllowSuperfinal`. */
  ghost predicate NeedsSuperfinal<W>(states: seq<VectorFstState<W>>, m: TrMapper<W>)
  {
    m.finalAction == MapRequireSuperfinal ||
    (m.finalAction == MapAllowSuperfinal && exists s :: 0 <= s < |states| && LabelledAt(states, s, m))
  }

  /** Under `MapNoSuperfinal`, every image of a final weight must be label-free. */
  ghost predicate FinalsMappable<W>(states: seq<VectorFstState<W>>, m: TrMapper<W>)
  {
    m.finalAction != MapNoSuperfinal || forall s :: 0 <= s < |states| ==> !LabelledAt(states, s, m)
  }

  /**
   * The final-weight step for a state `st` (transitions already mapped)
   * whose final weight has image `ft`, `sf` being the superfinal state's id:
   * the image becomes the final weight again, or is moved onto a transition
   * to the superfinal state. Under `MapRequireSuperfinal` the state stops
   * being final in either case.
   */
  function FinalStep<W(==)>(st: VectorFstState<W>, ft: FinalTr<W>, a: MapFinalAction, zero: W, sf: StateId): VectorFstState<W>
  {
    var toSuper := Tr(ft.ilabel, ft.olabel, ft.weight, sf);
    match a
    case MapNoSuperfinal => st.(final_weight := Some(ft.weight))
    case MapAllowSuperfinal =>
      if Labelled(ft) then VectorFstState(None, st.trs + [toSuper]) else st.(final_weight := Some(ft.weight))
    case MapRequireSuperfinal =>
      if Labelled(ft) || ft.weight != zero then VectorFstState(None, st.trs + [toSuper]) else st.(final_weight := None)
  }

  /**
   * The source's `MapRequireSuperfinal` step: when the image is label-free
   * with weight Zero nothing is done, so the state keeps its old, unmapped
   * final weight.
   */
  function FinalStepRequireAsWritten<W(==)>(st: VectorFstState<W>, ft: FinalTr<W>, zero: W, sf: StateId): VectorFstState<W>
  {
    if Labelled(ft) || ft.weight != zero then VectorFstState(None, st.trs + [Tr(ft.ilabel, ft.olabel, ft.weight, sf)])
    else st
  }

  /** An original state after `tr_map`: transitions mapped, then the final-weight step. */
  function MapState<W(==)>(st: VectorFstState<W>, m: TrMapper<W>, zero: W, sf: StateId): VectorFstState<W>
  {
    var mapped := st.(trs := MapTrs(st.trs, m.trMap));
    if st.final_weight.None? then mapped
    else FinalStep(mapped, MappedFinal(m, st.final_weight.value), m.finalAction, zero, sf)
  }

  /** The states after `tr_map` of an FST with a start. */
  ghost function TrMapStates<W>(states: seq<VectorFstState<W>>, m: TrMapper<W>, zero: W, one: W): seq<VectorFstState<W>>
  {
    var n := |states|;
    seq(n, s requires 0 <= s < n => MapState(states[s], m, zero, n)) +
    if NeedsSuperfinal(states, m) then [VectorFstState(Some(one), [])] else []
  }

  /** The transitions loop of one state: each transition replaced by its image, through the iterator. */
  method MapAll<W(==)>(it: TrsIterMut<W>, f: Tr<W> -> Tr<W>)
    requires it.Valid()
    modifies it
    ensures it.Valid() && it.trs == MapTrs(old(it.trs), f)
  {
    ghost var trs := it.trs;
    var idx := 0;
    while idx < it.Len()
      invariant it.Valid() && |it.trs| == |trs| && 0 <= idx <= |trs|
      invariant forall k :: 0 <= k < idx ==> it.trs[k] == f(trs[k])
      invariant forall k :: idx <= k < |trs| ==> it.trs[k] == trs[k]
    {
      var tr := it.trs[idx];
      it.SetTrUnchecked(idx, f(tr));
      idx := idx + 1;
    }
  }

  /** The original states once the main loop has handled the first `done` of them. */
  ghost function Partial<W>(s0: seq<VectorFstState<W>>, m: TrMapper<W>, zero: W, done: nat): seq<VectorFstState<W>>
  {
    seq(|s0|, s requires 0 <= s < |s0| => if s < done then MapState(s0[s], m, zero, |s0|) else s0[s])
  }

  /** Some state below `k` is final with a labelled image. */
  ghost predicate LabelledBelow<W>(s0: seq<VectorFstState<W>>, m: TrMapper<W>, k: nat)
  {
    exists s :: 0 <= s < k && s < |s0| && LabelledAt(s0, s, m)
  }

  /**
   * `tr_map(ifst, mapper)`: an FST without a start is left alone.
   * Otherwise the result is `TrMapStates`, except that under
   * `MapNoSuperfinal` an image of a final weight that carries a label is an
   * error (after which the FST is left part-way mapped).
   */
  method TrMap<W(==)>(zero: W, one: W, fst: VectorFst<W>, m: TrMapper<W>) returns (r: Result<()>)
    modifies fst
    ensures fst.start == old(fst.start)
    ensures old(fst.start).None? ==> r.Ok? && fst.states == old(fst.states)
    ensures old(fst.start).Some? ==> (r.Ok? <==> FinalsMappable(old(fst.states), m))
    ensures old(fst.start).Some? && r.Ok? ==> fst.states == TrMapStates(old(fst.states), m, zero, one)
  {
    r := Ok(());
    if fst.start.None? {
      return;
    }
    ghost var s0 := fst.states;
    var n := |fst.states|;
    var superfinal: Option<StateId> := None;
    if m.finalAction == MapRequireSuperfinal {
      var id := fst.AddState();
      superfinal := Some(id);
      fst.SetFinalUnchecked(id, one);
    }
    assert fst.states[..n] == Partial(s0, m, zero, 0);
    // The range is fixed here: a superfinal state added on demand later is not visited.
    var numStates := |fst.states|;
    var state := 0;
    while state < n
      invariant 0 <= state <= n && r.Ok?
      invariant fst.start == old(fst.start)
      invariant |fst.states| == n + if superfinal.Some? then 1 else 0
      invariant superfinal.Some? ==> superfinal.value == n && fst.states[n] == VectorFstState(Some(one), [])
      invariant m.finalAction == MapRequireSuperfinal ==> superfinal.Some?
      invariant m.finalAction == MapNoSuperfinal ==> superfinal.None? && !LabelledBelow(s0, m, state)
      invariant m.finalAction == MapAllowSuperfinal ==> (superfinal.Some? <==> LabelledBelow(s0, m, state))
      invariant fst.states[..n] == Partial(s0, m, zero, state)
    {
      assert fst.states[state] == s0[state];
      r, superfinal := MapStateAt(zero, one, fst, m, state, superfinal, n);
      if r.Err? {
        assert LabelledAt(s0, state, m);
        return;
      }
      assert Partial(s0, m, zero, state)[state := MapState(s0[state], m, zero, n)] == Partial(s0, m, zero, state + 1);
      if LabelledAt(s0, state, m) {
        assert LabelledBelow(s0, m, state + 1);
      } else if LabelledBelow(s0, m, state + 1) {
        assert LabelledBelow(s0, m, state);
      }
      state := state + 1;
    }
    // Under `MapRequireSuperfinal` the range also holds the superfinal state
    // `n`, which has no transitions and whose final weight is left as it is.
    assert numStates == n || fst.states[n] == VectorFstState(Some(one), []);
    if m.finalAction == MapAllowSuperfinal && superfinal.None? {
      assert !NeedsSuperfinal(s0, m);
    }
    forall s | 0 <= s < n && m.finalAction == MapNoSuperfinal ensures !LabelledAt(s0, s, m) {
      if LabelledAt(s0, s, m) {
        assert LabelledBelow(s0, m, n);
      }
    }
    assert fst.states == fst.states[..n] + fst.states[n..];
    assert fst.states == TrMapStates(s0, m, zero, one);
  }

  /** One state of the main loop: its transitions through the iterator, then its final weight. */
  method MapStateAt<W(==)>(zero: W, one: W, fst: VectorFst<W>, m: TrMapper<W>, state: StateId,
                           superfinal: Option<StateId>, n: nat)
    returns (r: Result<()>, superfinal': Option<StateId>)
    requires state < n && |fst.states| == n + (if superfinal.Some? then 1 else 0)
    requires superfinal.Some? ==> superfinal.value == n && fst.states[n] == VectorFstState(Some(one), [])
    requires m.finalAction == MapRequireSuperfinal ==> superfinal.Some?
    modifies fst
    ensures fst.start == old(fst.start)
    ensures r.Err? <==> m.finalAction == MapNoSuperfinal && LabelledAt(old(fst.states), state, m)
    ensures superfinal' == if m.finalAction == MapAllowSuperfinal && LabelledAt(old(fst.states), state, m) then Some(n) else superfinal
    ensures r.Ok? ==>
              && |fst.states| == n + (if superfinal'.Some? then 1 else 0)
              && (superfinal'.Some? ==> fst.states[n] == VectorFstState(Some(one), []))
              && fst.states[..n] == old(fst.states[..n])[state := MapState(old(fst.states[state]), m, zero, n)]
  {
    var trs := fst.states[state].trs;
    var it := new TrsIterMut(zero, one, trs, {}, CountIEps(trs), CountOEps(trs));
    MapAll(it, m.trMap);
    fst.SetTrsUnchecked(state, it.trs);
    r, superfinal' := Ok(()), superfinal;
    var fw := fst.states[state].final_weight;
    if fw.Some? {
      var ft := m.finalTrMap(FinalTr(EPS_LABEL, EPS_LABEL, fw.value));
      r, superfinal' := MapFinal(one, zero, fst, m, state, ft, superfinal, n);
    }
  }

  /**
   * The final-weight step of the main loop for original state `state`,
   * whose transitions are already mapped and whose final weight has image
   * `ft`. The superfinal state is created the first time it is needed.
   */
  method MapFinal<W(==)>(one: W, zero: W, fst: VectorFst<W>, m: TrMapper<W>, state: StateId, ft: FinalTr<W>,
                         superfinal: Option<StateId>, n: nat)
    returns (r: Result<()>, superfinal': Option<StateId>)
    requires state < n && |fst.states| == n + (if superfinal.Some? then 1 else 0)
    requires superfinal.Some? ==> superfinal.value == n && fst.states[n] == VectorFstState(Some(one), [])
    requires m.finalAction == MapRequireSuperfinal ==> superfinal.Some?
    modifies fst
    ensures fst.start == old(fst.start)
    ensures r.Err? <==> m.finalAction == MapNoSuperfinal && Labelled(ft)
    ensures superfinal' == if m.finalAction == MapAllowSuperfinal && Labelled(ft) then Some(n) else superfinal
    ensures r.Err? ==> fst.states == old(fst.states)
    ensures r.Ok? ==>
              && |fst.states| == n + (if superfinal'.Some? then 1 else 0)
              && (superfinal'.Some? ==> fst.states[n] == VectorFstState(Some(one), []))
              && fst.states[..n] == old(fst.states[..n])[state := FinalStep(old(fst.states[state]), ft, m.finalAction, zero, n)]
  {
    r, superfinal' := Ok(()), superfinal;
    match m.finalAction {
      case MapNoSuperfinal =>
        if Labelled(ft) {
          r := Err("TrMap: Non-zero tr labels for superfinal tr");
          return;
        }
        fst.SetFinalUnchecked(state, ft.weight);
      case MapAllowSuperfinal =>
        if Labelled(ft) {
          if superfinal'.None? {
            var id := fst.AddState();
            superfinal' := Some(id);
            fst.SetFinalUnchecked(id, one);
          }
          fst.AddTrUnchecked(state, Tr(ft.ilabel, ft.olabel, ft.weight, superfinal'.value));
          fst.DeleteFinalWeightUnchecked(state);
        } else {
          fst.SetFinalUnchecked(state, ft.weight);
        }
      case MapRequireSuperfinal =>
        if Labelled(ft) || ft.weight != zero {
          fst.AddTrUnchecked(state, Tr(ft.ilabel, ft.olabel, ft.weight, superfinal'.value));
        }
        fst.DeleteFinalWeightUnchecked(state);
    }
  }

  // ---------------------------------------------------------------------------
  // Properties of the result.

  /**
   * Every original transition is replaced in place by its image; a state
   * gains at most one transition (the one to the superfinal state), and the
   * superfinal state, when there is one, is the last state: final with
   * weight One and without transitions.
   */
  lemma TrMapShape<W>(states: seq<VectorFstState<W>>, m: TrMapper<W>, zero: W, one: W, s: nat, k: nat)
    requires s < |states|
    ensures var r := TrMapStates(states, m, zero, one);
      && |r| == |states| + (if NeedsSuperfinal(states, m) then 1 else 0)
      && (NeedsSuperfinal(states, m) ==> r[|states|] == VectorFstState(Some(one), []))
      && |states[s].trs| <= |r[s].trs| <= |states[s].trs| + 1
      && (k < |states[s].trs| ==> r[s].trs[k] == m.trMap(states[s].trs[k]))
  {
    var r := TrMapStates(states, m, zero, one);
    assert r[s] == MapState(states[s], m, zero, |states|);
  }

  /**
   * Where the image of a final weight goes. A label-free image under
   * `MapNoSuperfinal` or `MapAllowSuperfinal` stays the final weight; a
   * labelled image under `MapAllowSuperfinal`, and every image under
   * `MapRequireSuperfinal` except a label-free Zero, becomes the last
   * transition of the state, towards the superfinal state, and the state is
   * no longer final.
   */
  lemma TrMapFinalMoved<W>(states: seq<VectorFstState<W>>, m: TrMapper<W>, zero: W, one: W, s: nat)
    requires s < |states| && states[s].final_weight.Some?
    requires FinalsMappable(states, m)
    ensures var r := TrMapStates(states, m, zero, one);
      var ft := MappedFinal(m, states[s].final_weight.value);
      var n := |states|;
      if m.finalAction != MapRequireSuperfinal && !Labelled(ft) then
        r[s].final_weight == Some(ft.weight) && |r[s].trs| == |states[s].trs|
      else if m.finalAction == MapRequireSuperfinal && !Labelled(ft) && ft.weight == zero then
        r[s].final_weight.None? && |r[s].trs| == |states[s].trs|
      else
        && r[s].final_weight.None?
        && |r[s].trs| == |states[s].trs| + 1
        && r[s].trs[|states[s].trs|] == Tr(ft.ilabel, ft.olabel, ft.weight, n)
        && n < |r| && r[n].final_weight == Some(one)
  {
    var r := TrMapStates(states, m, zero, one);
    assert r[s] == MapState(states[s], m, zero, |states|);
    var ft := MappedFinal(m, states[s].final_weight.value);
    if Labelled(ft) {
      assert LabelledAt(states, s, m);
    }
  }

  /**
   * A state that was not final is not final afterwards, and under
   * `MapRequireSuperfinal` the superfinal state is the only final state.
   */
  lemma TrMapFinals<W>(states: seq<VectorFstState<W>>, m: TrMapper<W>, zero: W, one: W, s: nat)
    requires s < |states|
    ensures var r := TrMapStates(states, m, zero, one);
      && (states[s].final_weight.None? ==> r[s].final_weight.None?)
      && (m.finalAction == MapRequireSuperfinal ==> r[s].final_weight.None? && r[|states|].final_weight == Some(one))
  {
    var r := TrMapStates(states, m, zero, one);
    assert r[s] == MapState(states[s], m, zero, |states|);
  }

  /**
   * A mapper that keeps destinations keeps every transition inside the
   * FST: the transitions to the superfinal state lead to a state that exists.
   */
  lemma TrMapInRange<W>(states: seq<VectorFstState<W>>, m: TrMapper<W>, zero: W, one: W)
    requires TrsInRange(states)
    requires forall s, k :: 0 <= s < |states| && 0 <= k < |states[s].trs| ==>
               m.trMap(states[s].trs[k]).nextstate == states[s].trs[k].nextstate
    requires FinalsMappable(states, m)
    ensures TrsInRange(TrMapStates(states, m, zero, one))
  {
    var r := TrMapStates(states, m, zero, one);
    var n := |states|;
    forall s, k | 0 <= s < |r| && 0 <= k < |r[s].trs| ensures r[s].trs[k].nextstate < |r| {
      if s < n {
        TrMapShape(states, m, zero, one, s, k);
        if k >= |states[s].trs| {
          TrMapFinalMoved(states, m, zero, one, s);
        }
      }
    }
  }

  /**
   * The as-written `MapRequireSuperfinal` step leaves a final state whose
   * weight maps to Zero final with its old weight, while the corrected step
   * makes it non-final: with integer weights, Zero 0 and a mapper sending
   * every final weight to 0, a state final with weight 5 stays final with 5.
   */
  lemma RequireAsWrittenKeepsFinal()
    ensures var st: VectorFstState<int> := VectorFstState(Some(5), []);
      var ft := FinalTr(EPS_LABEL, EPS_LABEL, 0);
      && FinalStepRequireAsWritten(st, ft, 0, 1).final_weight == Some(5)
      && FinalStep(st, ft, MapRequireSuperfinal, 0, 1).final_weight.None?
  {
  }
}
