/**
 * `TrsIterMut`: mutable access to the transitions of one state, which keeps
 * that state's counts of input- and output-epsilon transitions and the FST's
 * property bits up to date on every write.
 */
module TrsIterMuts {
  import opened Wrappers
  import opened FstTypes
  import opened FstProperties

  // ---------------------------------------------------------------------------
  // The property updates.

  /** The bits `update_properties_labels` touches. */
  const LABEL_BITS: Props :=
    {ACCEPTOR, NOT_ACCEPTOR, EPSILONS, NO_EPSILONS, I_EPSILONS, NO_I_EPSILONS, O_EPSILONS, NO_O_EPSILONS}

  /**
   * `update_properties_labels`: withdraw the positive claims the old labels
   * may have supported, then add what the new labels show.
   */
  function UpdateLabels(p: Props, oldI: Label, oldO: Label, newI: Label, newO: Label): (r: Props)
    ensures ACCEPTOR in r <==> ACCEPTOR in p && newI == newO
    ensures NOT_ACCEPTOR in r <==> newI != newO || (NOT_ACCEPTOR in p && oldI == oldO)
    ensures EPSILONS in r <==> (newI == EPS_LABEL && newO == EPS_LABEL) ||
                               (EPSILONS in p && !(oldI == EPS_LABEL && oldO == EPS_LABEL))
    ensures NO_EPSILONS in r <==> NO_EPSILONS in p && !(newI == EPS_LABEL && newO == EPS_LABEL)
    ensures I_EPSILONS in r <==> newI == EPS_LABEL || (I_EPSILONS in p && oldI != EPS_LABEL)
    ensures NO_I_EPSILONS in r <==> NO_I_EPSILONS in p && newI != EPS_LABEL
    ensures O_EPSILONS in r <==> newO == EPS_LABEL || (O_EPSILONS in p && oldO != EPS_LABEL)
    ensures NO_O_EPSILONS in r <==> NO_O_EPSILONS in p && newO != EPS_LABEL
    ensures r - LABEL_BITS == p - LABEL_BITS
  {
    var p1 := if oldI != oldO then p - {NOT_ACCEPTOR} else p;
    var p2 := if oldI == EPS_LABEL then
                (if oldO == EPS_LABEL then p1 - {I_EPSILONS} - {EPSILONS} else p1 - {I_EPSILONS})
              else p1;
    var p3 := if oldO == EPS_LABEL then p2 - {O_EPSILONS} else p2;
    var p4 := if newI != newO then p3 + {NOT_ACCEPTOR} - {ACCEPTOR} else p3;
    var p5 := if newI == EPS_LABEL then
                (var q := p4 + {I_EPSILONS} - {NO_I_EPSILONS};
                 if newO == EPS_LABEL then q + {EPSILONS} - {NO_EPSILONS} else q)
              else p4;
    if newO == EPS_LABEL then p5 + {O_EPSILONS} - {NO_O_EPSILONS} else p5
  }

  /**
   * `update_properties_weights`: a weight other than Zero and One makes the
   * FST weighted; replacing one withdraws the claim.
   */
  function UpdateWeights<W(==)>(p: Props, zero: W, one: W, oldW: W, newW: W): (r: Props)
    ensures WEIGHTED in r <==> NonTrivial(newW, zero, one) || (WEIGHTED in p && !NonTrivial(oldW, zero, one))
    ensures UNWEIGHTED in r <==> UNWEIGHTED in p && !NonTrivial(newW, zero, one)
    ensures r - {WEIGHTED, UNWEIGHTED} == p - {WEIGHTED, UNWEIGHTED}
  {
    var p1 := if NonTrivial(oldW, zero, one) then p - {WEIGHTED} else p;
    if NonTrivial(newW, zero, one) then p1 + {WEIGHTED} - {UNWEIGHTED} else p1
  }

  /** `keep_only_relevant_properties`: every bit a transition write may invalidate is dropped. */
  function KeepRelevant(p: Props): (r: Props)
    ensures r <= RELEVANT_AFTER_SET
    ensures forall b :: b in RELEVANT_AFTER_SET ==> (b in r <==> b in p)
  {
    p * RELEVANT_AFTER_SET
  }

  function NewPropsLabels(p: Props, oldI: Label, oldO: Label, newI: Label, newO: Label): Props
  {
    KeepRelevant(UpdateLabels(p, oldI, oldO, newI, newO))
  }

  function NewPropsWeights<W(==)>(p: Props, zero: W, one: W, oldW: W, newW: W): Props
  {
    KeepRelevant(UpdateWeights(p, zero, one, oldW, newW))
  }

  function NewPropsAll<W(==)>(p: Props, zero: W, one: W, oldTr: Tr<W>, newTr: Tr<W>): Props
  {
    KeepRelevant(UpdateWeights(UpdateLabels(p, oldTr.ilabel, oldTr.olabel, newTr.ilabel, newTr.olabel),
                               zero, one, oldTr.weight, newTr.weight))
  }

  // ---------------------------------------------------------------------------
  // The updates keep the label and weight bits true of the FST.

  /** Dropping bits never makes a true claim false. */
  lemma FewerBitsHold<W>(p: Props, q: Props, zero: W, one: W, all: seq<Tr<W>>, finals: seq<W>)
    requires q <= p
    requires LabelBitsHold(p, all) && WeightBitsHold(p, zero, one, all, finals)
    ensures LabelBitsHold(q, all) && WeightBitsHold(q, zero, one, all, finals)
  {
  }

  /**
   * Writing `t` over transition `j` keeps every label bit of `UpdateLabels`
   * true: `all` is every transition of the FST, of which the iterator's
   * transitions are a slice.
   */
  lemma UpdateLabelsSound<W>(p: Props, all: seq<Tr<W>>, j: nat, t: Tr<W>)
    requires j < |all| && LabelBitsHold(p, all)
    ensures LabelBitsHold(UpdateLabels(p, all[j].ilabel, all[j].olabel, t.ilabel, t.olabel), all[j := t])
  {
    var r := UpdateLabels(p, all[j].ilabel, all[j].olabel, t.ilabel, t.olabel);
    var all' := all[j := t];
    assert all'[j] == t;
    if NOT_ACCEPTOR in r && t.ilabel == t.olabel {
      var k :| 0 <= k < |all| && all[k].ilabel != all[k].olabel;
      assert all'[k] == all[k];
    }
    if EPSILONS in r && !(t.ilabel == EPS_LABEL && t.olabel == EPS_LABEL) {
      var k :| 0 <= k < |all| && all[k].ilabel == EPS_LABEL && all[k].olabel == EPS_LABEL;
      assert all'[k] == all[k];
    }
    if I_EPSILONS in r && t.ilabel != EPS_LABEL {
      var k :| 0 <= k < |all| && all[k].ilabel == EPS_LABEL;
      assert all'[k] == all[k];
    }
    if O_EPSILONS in r && t.olabel != EPS_LABEL {
      var k :| 0 <= k < |all| && all[k].olabel == EPS_LABEL;
      assert all'[k] == all[k];
    }
  }

  /** Writing `t` over transition `j` keeps both weight bits of `UpdateWeights` true. */
  lemma UpdateWeightsSound<W>(p: Props, zero: W, one: W, all: seq<Tr<W>>, finals: seq<W>, j: nat, t: Tr<W>)
    requires j < |all| && WeightBitsHold(p, zero, one, all, finals)
    ensures WeightBitsHold(UpdateWeights(p, zero, one, all[j].weight, t.weight), zero, one, all[j := t], finals)
  {
    var r := UpdateWeights(p, zero, one, all[j].weight, t.weight);
    var all' := all[j := t];
    if WEIGHTED in r && !NonTrivial(t.weight, zero, one) {
      if exists k :: 0 <= k < |all| && NonTrivial(all[k].weight, zero, one) {
        var k :| 0 <= k < |all| && NonTrivial(all[k].weight, zero, one);
        assert all'[k] == all[k];
      }
    } else if WEIGHTED in r {
      assert NonTrivial(all'[j].weight, zero, one);
    }
  }

  lemma LabelsKeepWeightBits<W>(p: Props, q: Props, zero: W, one: W, all: seq<Tr<W>>, all': seq<Tr<W>>, finals: seq<W>)
    requires (WEIGHTED in q <==> WEIGHTED in p) && (UNWEIGHTED in q <==> UNWEIGHTED in p)
    requires |all| == |all'| && forall k :: 0 <= k < |all| ==> all'[k].weight == all[k].weight
    requires WeightBitsHold(p, zero, one, all, finals)
    ensures WeightBitsHold(q, zero, one, all', finals)
  {
    if WEIGHTED in q && exists k :: 0 <= k < |all| && NonTrivial(all[k].weight, zero, one) {
      var k :| 0 <= k < |all| && NonTrivial(all[k].weight, zero, one);
      assert NonTrivial(all'[k].weight, zero, one);
    }
  }

  lemma WeightsKeepLabelBits<W>(p: Props, q: Props, all: seq<Tr<W>>, all': seq<Tr<W>>)
    requires forall b :: b in LABEL_BITS ==> (b in q <==> b in p)
    requires |all| == |all'|
    requires forall k :: 0 <= k < |all| ==> all'[k].ilabel == all[k].ilabel && all'[k].olabel == all[k].olabel
    requires LabelBitsHold(p, all)
    ensures LabelBitsHold(q, all')
  {
    if NOT_ACCEPTOR in q {
      var k :| 0 <= k < |all| && all[k].ilabel != all[k].olabel;
      assert all'[k].ilabel != all'[k].olabel;
    }
    if EPSILONS in q {
      var k :| 0 <= k < |all| && all[k].ilabel == EPS_LABEL && all[k].olabel == EPS_LABEL;
      assert all'[k].ilabel == EPS_LABEL && all'[k].olabel == EPS_LABEL;
    }
    if I_EPSILONS in q {
      var k :| 0 <= k < |all| && all[k].ilabel == EPS_LABEL;
      assert all'[k].ilabel == EPS_LABEL;
    }
    if O_EPSILONS in q {
      var k :| 0 <= k < |all| && all[k].olabel == EPS_LABEL;
      assert all'[k].olabel == EPS_LABEL;
    }
  }

  /**
   * `compute_new_properties_labels`: after a write that changes only labels
   * (`set_ilabel`, `set_olabel`, `set_labels`), what is kept still holds.
   */
  lemma NewPropsLabelsSound<W>(p: Props, zero: W, one: W, all: seq<Tr<W>>, finals: seq<W>, j: nat, t: Tr<W>)
    requires j < |all| && t.weight == all[j].weight
    requires LabelBitsHold(p, all) && WeightBitsHold(p, zero, one, all, finals)
    ensures var q := NewPropsLabels(p, all[j].ilabel, all[j].olabel, t.ilabel, t.olabel);
            LabelBitsHold(q, all[j := t]) && WeightBitsHold(q, zero, one, all[j := t], finals)
  {
    var pl := UpdateLabels(p, all[j].ilabel, all[j].olabel, t.ilabel, t.olabel);
    UpdateLabelsSound(p, all, j, t);
    LabelsKeepWeightBits(p, pl, zero, one, all, all[j := t], finals);
    FewerBitsHold(pl, KeepRelevant(pl), zero, one, all[j := t], finals);
  }

  /**
   * `compute_new_properties_weights`: after a write that changes only the
   * weight (`set_weight`), what is kept still holds.
   */
  lemma NewPropsWeightsSound<W>(p: Props, zero: W, one: W, all: seq<Tr<W>>, finals: seq<W>, j: nat, t: Tr<W>)
    requires j < |all| && t.ilabel == all[j].ilabel && t.olabel == all[j].olabel
    requires LabelBitsHold(p, all) && WeightBitsHold(p, zero, one, all, finals)
    ensures var q := NewPropsWeights(p, zero, one, all[j].weight, t.weight);
            LabelBitsHold(q, all[j := t]) && WeightBitsHold(q, zero, one, all[j := t], finals)
  {
    var pw := UpdateWeights(p, zero, one, all[j].weight, t.weight);
    UpdateWeightsSound(p, zero, one, all, finals, j, t);
    WeightsKeepLabelBits(p, pw, all, all[j := t]);
    FewerBitsHold(pw, KeepRelevant(pw), zero, one, all[j := t], finals);
  }

  /** `compute_new_properties_all`: after `set_tr`, what is kept still holds. */
  lemma NewPropsAllSound<W>(p: Props, zero: W, one: W, all: seq<Tr<W>>, finals: seq<W>, j: nat, t: Tr<W>)
    requires j < |all| && LabelBitsHold(p, all) && WeightBitsHold(p, zero, one, all, finals)
    ensures var q := NewPropsAll(p, zero, one, all[j], t);
            LabelBitsHold(q, all[j := t]) && WeightBitsHold(q, zero, one, all[j := t], finals)
  {
    var t1 := all[j].(ilabel := t.ilabel, olabel := t.olabel);
    var lab := all[j := t1];
    var pl := UpdateLabels(p, all[j].ilabel, all[j].olabel, t.ilabel, t.olabel);
    UpdateLabelsSound(p, all, j, t1);
    LabelsKeepWeightBits(p, pl, zero, one, all, lab, finals);
    var pa := UpdateWeights(pl, zero, one, all[j].weight, t.weight);
    assert lab[j := t] == all[j := t];
    UpdateWeightsSound(pl, zero, one, lab, finals, j, t);
    WeightsKeepLabelBits(pl, pa, lab, all[j := t]);
    FewerBitsHold(pa, KeepRelevant(pa), zero, one, all[j := t], finals);
  }

  /** `set_nextstate` only narrows the bits, and what is kept still holds. */
  lemma KeepRelevantSound<W>(p: Props, zero: W, one: W, all: seq<Tr<W>>, finals: seq<W>, j: nat, n: StateId)
    requires j < |all| && LabelBitsHold(p, all) && WeightBitsHold(p, zero, one, all, finals)
    ensures var all' := all[j := all[j].(nextstate := n)];
            LabelBitsHold(KeepRelevant(p), all') && WeightBitsHold(KeepRelevant(p), zero, one, all', finals)
  {
    var all' := all[j := all[j].(nextstate := n)];
    LabelsKeepWeightBits(p, p, zero, one, all, all', finals);
    WeightsKeepLabelBits(p, p, all, all');
    FewerBitsHold(p, KeepRelevant(p), zero, one, all', finals);
  }

  // ---------------------------------------------------------------------------
  // Epsilon counts under a single write.

  lemma {:induction false} CountIEpsUpdate<W>(trs: seq<Tr<W>>, idx: nat, t: Tr<W>)
    requires idx < |trs|
    ensures CountIEps(trs[idx := t]) + (if trs[idx].ilabel == EPS_LABEL then 1 else 0)
            == CountIEps(trs) + (if t.ilabel == EPS_LABEL then 1 else 0)
    decreases |trs|
  {
    var u := trs[idx := t];
    assert u[..|u| - 1] == if idx < |trs| - 1 then trs[..|trs| - 1][idx := t] else trs[..|trs| - 1];
    if idx < |trs| - 1 {
      CountIEpsUpdate(trs[..|trs| - 1], idx, t);
    }
  }

  lemma {:induction false} CountOEpsUpdate<W>(trs: seq<Tr<W>>, idx: nat, t: Tr<W>)
    requires idx < |trs|
    ensures CountOEps(trs[idx := t]) + (if trs[idx].olabel == EPS_LABEL then 1 else 0)
            == CountOEps(trs) + (if t.olabel == EPS_LABEL then 1 else 0)
    decreases |trs|
  {
    var u := trs[idx := t];
    assert u[..|u| - 1] == if idx < |trs| - 1 then trs[..|trs| - 1][idx := t] else trs[..|trs| - 1];
    if idx < |trs| - 1 {
      CountOEpsUpdate(trs[..|trs| - 1], idx, t);
    }
  }

  lemma {:induction false} CountEpsPositive<W>(trs: seq<Tr<W>>, idx: nat)
    requires idx < |trs|
    ensures trs[idx].ilabel == EPS_LABEL ==> CountIEps(trs) > 0
    ensures trs[idx].olabel == EPS_LABEL ==> CountOEps(trs) > 0
    decreases |trs|
  {
    if idx < |trs| - 1 {
      CountEpsPositive(trs[..|trs| - 1], idx);
    }
  }

  // ---------------------------------------------------------------------------

  class TrsIterMut<W(==)> {
    var trs: seq<Tr<W>>
    var properties: Props
    var niepsilons: nat
    var noepsilons: nat
    /** The semiring's Zero and One, which `is_zero` and `is_one` compare with. */
    const zero: W
    const one: W

    /** The counters agree with the transitions. */
    ghost predicate Valid()
      reads this
    {
      niepsilons == CountIEps(trs) && noepsilons == CountOEps(trs)
    }

    constructor (zero: W, one: W, trs: seq<Tr<W>>, properties: Props, niepsilons: nat, noepsilons: nat)
      ensures this.zero == zero && this.one == one && this.trs == trs && this.properties == properties
      ensures this.niepsilons == niepsilons && this.noepsilons == noepsilons
    {
      this.zero := zero;
      this.one := one;
      this.trs := trs;
      this.properties := properties;
      this.niepsilons := niepsilons;
      this.noepsilons := noepsilons;
    }

    function Len(): (n: nat)
      reads this
      ensures n == |trs|
    {
      |trs|
    }

    function IsEmpty(): (b: bool)
      reads this
      ensures b <==> |trs| == 0
    {
      |trs| == 0
    }

    function Get(idx: nat): (r: Option<Tr<W>>)
      reads this
      ensures idx < |trs| ==> r == Some(trs[idx])
      ensures idx >= |trs| ==> r == None
    {
      if idx < |trs| then Some(trs[idx]) else None
    }

    /** The body shared by `set_ilabel` and `set_ilabel_unchecked`. */
    method WriteIlabel(idx: nat, ilabel: Label)
      requires Valid() && idx < |trs|
      modifies this
      ensures Valid()
      ensures trs == old(trs)[idx := old(trs)[idx].(ilabel := ilabel)]
      ensures properties == NewPropsLabels(old(properties), old(trs)[idx].ilabel, old(trs)[idx].olabel, ilabel, old(trs)[idx].olabel)
      ensures noepsilons == old(noepsilons)
    {
      var old_tr := trs[idx];
      properties := NewPropsLabels(properties, old_tr.ilabel, old_tr.olabel, ilabel, old_tr.olabel);
      CountEpsPositive(trs, idx);
      CountIEpsUpdate(trs, idx, old_tr.(ilabel := ilabel));
      CountOEpsUpdate(trs, idx, old_tr.(ilabel := ilabel));
      if old_tr.ilabel == EPS_LABEL {
        niepsilons := niepsilons - 1;
      }
      if ilabel == EPS_LABEL {
        niepsilons := niepsilons + 1;
      }
      trs := trs[idx := old_tr.(ilabel := ilabel)];
    }

    /** The body shared by `set_olabel` and `set_olabel_unchecked`. */
    method WriteOlabel(idx: nat, olabel: Label)
      requires Valid() && idx < |trs|
      modifies this
      ensures Valid()
      ensures trs == old(trs)[idx := old(trs)[idx].(olabel := olabel)]
      ensures properties == NewPropsLabels(old(properties), old(trs)[idx].ilabel, old(trs)[idx].olabel, old(trs)[idx].ilabel, olabel)
      ensures niepsilons == old(niepsilons)
    {
      var old_tr := trs[idx];
      properties := NewPropsLabels(properties, old_tr.ilabel, old_tr.olabel, old_tr.ilabel, olabel);
      CountEpsPositive(trs, idx);
      CountIEpsUpdate(trs, idx, old_tr.(olabel := olabel));
      CountOEpsUpdate(trs, idx, old_tr.(olabel := olabel));
      if old_tr.olabel == EPS_LABEL {
        noepsilons := noepsilons - 1;
      }
      if olabel == EPS_LABEL {
        noepsilons := noepsilons + 1;
      }
      trs := trs[idx := old_tr.(olabel := olabel)];
    }

    /** The body shared by `set_tr` and `set_tr_unchecked`. */
    method WriteTr(idx: nat, tr: Tr<W>)
      requires Valid() && idx < |trs|
      modifies this
      ensures Valid()
      ensures trs == old(trs)[idx := tr]
      ensures properties == NewPropsAll(old(properties), zero, one, old(trs)[idx], tr)
    {
      var old_tr := trs[idx];
      properties := NewPropsAll(properties, zero, one, old_tr, tr);
      CountEpsPositive(trs, idx);
      CountIEpsUpdate(trs, idx, tr);
      CountOEpsUpdate(trs, idx, tr);
      if old_tr.ilabel == EPS_LABEL {
        niepsilons := niepsilons - 1;
      }
      if tr.ilabel == EPS_LABEL {
        niepsilons := niepsilons + 1;
      }
      if old_tr.olabel == EPS_LABEL {
        noepsilons := noepsilons - 1;
      }
      if tr.olabel == EPS_LABEL {
        noepsilons := noepsilons + 1;
      }
      trs := trs[idx := tr];
    }

    /** Sets the input label of transition `idx`; an index past the end is an error and changes nothing. */
    method SetIlabel(idx: nat, ilabel: Label) returns (r: Result<()>)
      requires Valid()
      modifies this
      ensures Valid()
      ensures idx >= |old(trs)| ==> r.Err? && trs == old(trs) && properties == old(properties)
                                    && niepsilons == old(niepsilons) && noepsilons == old(noepsilons)
      ensures idx < |old(trs)| ==> r.Ok? && trs == old(trs)[idx := old(trs)[idx].(ilabel := ilabel)]
      ensures idx < |old(trs)| ==>
                properties == NewPropsLabels(old(properties), old(trs)[idx].ilabel, old(trs)[idx].olabel, ilabel, old(trs)[idx].olabel)
    {
      if idx >= |trs| {
        return Err("set_tr shouldn't be called when the iteration is over");
      }
      WriteIlabel(idx, ilabel);
      r := Ok(());
    }

    /** Sets the output label of transition `idx`; an index past the end is an error and changes nothing. */
    method SetOlabel(idx: nat, olabel: Label) returns (r: Result<()>)
      requires Valid()
      modifies this
      ensures Valid()
      ensures idx >= |old(trs)| ==> r.Err? && trs == old(trs) && properties == old(properties)
                                    && niepsilons == old(niepsilons) && noepsilons == old(noepsilons)
      ensures idx < |old(trs)| ==> r.Ok? && trs == old(trs)[idx := old(trs)[idx].(olabel := olabel)]
      ensures idx < |old(trs)| ==>
                properties == NewPropsLabels(old(properties), old(trs)[idx].ilabel, old(trs)[idx].olabel, old(trs)[idx].ilabel, olabel)
    {
      if idx >= |trs| {
        return Err("set_tr shouldn't be called when the iteration is over");
      }
      WriteOlabel(idx, olabel);
      r := Ok(());
    }

    /** Sets the weight of transition `idx`; an index past the end is an error and changes nothing. */
    method SetWeight(idx: nat, weight: W) returns (r: Result<()>)
      requires Valid()
      modifies this
      ensures Valid() && niepsilons == old(niepsilons) && noepsilons == old(noepsilons)
      ensures idx >= |old(trs)| ==> r.Err? && trs == old(trs) && properties == old(properties)
      ensures idx < |old(trs)| ==> r.Ok? && trs == old(trs)[idx := old(trs)[idx].(weight := weight)]
      ensures idx < |old(trs)| ==> properties == NewPropsWeights(old(properties), zero, one, old(trs)[idx].weight, weight)
    {
      if idx >= |trs| {
        return Err("set_tr shouldn't be called when the iteration is over");
      }
      SetWeightUnchecked(idx, weight);
      r := Ok(());
    }

    /**
     * Sets the destination of transition `idx`. The properties are narrowed
     * before the index is checked, so even the error case narrows them.
     */
    method SetNextstate(idx: nat, nextstate: StateId) returns (r: Result<()>)
      requires Valid()
      modifies this
      ensures Valid() && niepsilons == old(niepsilons) && noepsilons == old(noepsilons)
      ensures properties == KeepRelevant(old(properties))
      ensures idx >= |old(trs)| ==> r.Err? && trs == old(trs)
      ensures idx < |old(trs)| ==> r.Ok? && trs == old(trs)[idx := old(trs)[idx].(nextstate := nextstate)]
    {
      properties := KeepRelevant(properties);
      if idx >= |trs| {
        return Err("set_tr shouldn't be called when the iteration is over");
      }
      CountIEpsUpdate(trs, idx, trs[idx].(nextstate := nextstate));
      CountOEpsUpdate(trs, idx, trs[idx].(nextstate := nextstate));
      trs := trs[idx := trs[idx].(nextstate := nextstate)];
      r := Ok(());
    }

    /** Replaces transition `idx`; an index past the end is an error and changes nothing. */
    method SetTr(idx: nat, tr: Tr<W>) returns (r: Result<()>)
      requires Valid()
      modifies this
      ensures Valid()
      ensures idx >= |old(trs)| ==> r.Err? && trs == old(trs) && properties == old(properties)
                                    && niepsilons == old(niepsilons) && noepsilons == old(noepsilons)
      ensures idx < |old(trs)| ==> r.Ok? && trs == old(trs)[idx := tr]
      ensures idx < |old(trs)| ==> properties == NewPropsAll(old(properties), zero, one, old(trs)[idx], tr)
    {
      if idx >= |trs| {
        return Err("set_tr shouldn't be called when the iteration is over");
      }
      WriteTr(idx, tr);
      r := Ok(());
    }

    method SetIlabelUnchecked(idx: nat, ilabel: Label)
      requires Valid() && idx < |trs|
      modifies this
      ensures Valid()
      ensures trs == old(trs)[idx := old(trs)[idx].(ilabel := ilabel)]
      ensures properties == NewPropsLabels(old(properties), old(trs)[idx].ilabel, old(trs)[idx].olabel, ilabel, old(trs)[idx].olabel)
    {
      WriteIlabel(idx, ilabel);
    }

    method SetOlabelUnchecked(idx: nat, olabel: Label)
      requires Valid() && idx < |trs|
      modifies this
      ensures Valid()
      ensures trs == old(trs)[idx := old(trs)[idx].(olabel := olabel)]
      ensures properties == NewPropsLabels(old(properties), old(trs)[idx].ilabel, old(trs)[idx].olabel, old(trs)[idx].ilabel, olabel)
    {
      WriteOlabel(idx, olabel);
    }

    /** Both labels of transition `idx` at once, both counters updated. */
    method SetLabelsUnchecked(idx: nat, ilabel: Label, olabel: Label)
      requires Valid() && idx < |trs|
      modifies this
      ensures Valid()
      ensures trs == old(trs)[idx := old(trs)[idx].(ilabel := ilabel, olabel := olabel)]
      ensures properties == NewPropsLabels(old(properties), old(trs)[idx].ilabel, old(trs)[idx].olabel, ilabel, olabel)
    {
      var old_tr := trs[idx];
      var t := old_tr.(ilabel := ilabel, olabel := olabel);
      properties := NewPropsLabels(properties, old_tr.ilabel, old_tr.olabel, ilabel, olabel);
      CountEpsPositive(trs, idx);
      CountIEpsUpdate(trs, idx, t);
      CountOEpsUpdate(trs, idx, t);
      if old_tr.ilabel == EPS_LABEL {
        niepsilons := niepsilons - 1;
      }
      if ilabel == EPS_LABEL {
        niepsilons := niepsilons + 1;
      }
      if old_tr.olabel == EPS_LABEL {
        noepsilons := noepsilons - 1;
      }
      if olabel == EPS_LABEL {
        noepsilons := noepsilons + 1;
      }
      trs := trs[idx := t];
    }

    method SetWeightUnchecked(idx: nat, weight: W)
      requires Valid() && idx < |trs|
      modifies this
      ensures Valid() && niepsilons == old(niepsilons) && noepsilons == old(noepsilons)
      ensures trs == old(trs)[idx := old(trs)[idx].(weight := weight)]
      ensures properties == NewPropsWeights(old(properties), zero, one, old(trs)[idx].weight, weight)
    {
      properties := NewPropsWeights(properties, zero, one, trs[idx].weight, weight);
      CountIEpsUpdate(trs, idx, trs[idx].(weight := weight));
      CountOEpsUpdate(trs, idx, trs[idx].(weight := weight));
      trs := trs[idx := trs[idx].(weight := weight)];
    }

    method SetNextstateUnchecked(idx: nat, nextstate: StateId)
      requires Valid() && idx < |trs|
      modifies this
      ensures Valid() && niepsilons == old(niepsilons) && noepsilons == old(noepsilons)
      ensures properties == KeepRelevant(old(properties))
      ensures trs == old(trs)[idx := old(trs)[idx].(nextstate := nextstate)]
    {
      properties := KeepRelevant(properties);
      CountIEpsUpdate(trs, idx, trs[idx].(nextstate := nextstate));
      CountOEpsUpdate(trs, idx, trs[idx].(nextstate := nextstate));
      trs := trs[idx := trs[idx].(nextstate := nextstate)];
    }

    method SetTrUnchecked(idx: nat, tr: Tr<W>)
      requires Valid() && idx < |trs|
      modifies this
      ensures Valid()
      ensures trs == old(trs)[idx := tr]
      ensures properties == NewPropsAll(old(properties), zero, one, old(trs)[idx], tr)
    {
      WriteTr(idx, tr);
    }
  }
}
