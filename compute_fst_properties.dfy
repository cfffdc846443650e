/**
 * `compute_fst_properties`: one pass over every state and transition that
 * decides the label, weight, sorting and string bits; the cycle and
 * reachability bits come from the SCC visitor and are taken as an input.
 *
 * Each computed property starts on its "nothing found" side (for example
 * ACCEPTOR, NO_EPSILONS, UNWEIGHTED) and moves to the other side the first
 * time the scan finds an instance (a transition with ilabel != olabel, an
 * epsilon transition, a non-trivial weight). `Computed` states the result
 * through the set of properties for which an instance exists anywhere in
 * the FST, and the `...Bits` lemmas spell out, property by property, what
 * each of the two bits then says about the states and transitions.
 */
module ComputeFstProperties {
  import opened Wrappers
  import opened FstTypes
  import opened FstProperties

  /** The properties whose bits come from the SCC visitor rather than from the scan. */
  predicate FromDfs(q: Property)
  {
    q.Cyclic? || q.InitialCyclic? || q.Accessible? || q.Coaccessible?
  }

  /** The properties whose found side is the positive bit (EPSILONS, WEIGHTED, ...). */
  predicate FoundPos(q: Property)
  {
    q.Epsilons? || q.IEpsilons? || q.OEpsilons? || q.Weighted? || q.WeightedCycles?
  }

  /** The bit a property takes once an instance is found. */
  function Found(q: Property): Bit
  {
    if FoundPos(q) then Pos(q) else Neg(q)
  }

  /** The bit a property starts with. */
  function Initial(q: Property): Bit
  {
    if FoundPos(q) then Neg(q) else Pos(q)
  }

  /** The DFS bits `compute_fst_properties` takes from the SCC visitor. */
  const DFS_BITS: Props :=
    {ACYCLIC, CYCLIC, INITIAL_ACYCLIC, INITIAL_CYCLIC, ACCESSIBLE, NOT_ACCESSIBLE, COACCESSIBLE, NOT_COACCESSIBLE}

  /**
   * `p` holds the SCC visitor's bits for the DFS properties and, for every
   * other property, its found bit if the property is in `found` and its
   * initial bit otherwise.
   */
  ghost predicate Encodes(p: Props, dfsProps: Props, found: set<Property>)
  {
    forall b: Bit {:trigger b in p} :: b in p <==> if FromDfs(b.prop) then b in dfsProps else (b.prop in found <==> b == Found(b.prop))
  }

  /** Finding an instance of `q` moves `q` from its initial bit to its found bit. */
  lemma EncodeFound(p: Props, dfsProps: Props, found: set<Property>, q: Property)
    requires !FromDfs(q) && Encodes(p, dfsProps, found)
    ensures Encodes(p + {Found(q)} - {Initial(q)}, dfsProps, found + {q})
  {
  }

  /** `props |= on; props &= !off` when `c` holds: claims `on` and withdraws its opposite `off`. */
  function Raise(p: Props, c: bool, on: Bit, off: Bit): Props
  {
    if c then p + {on} - {off} else p
  }

  /**
   * One step of the scan: `p'` is `p` with `q` moved to its found bit when
   * `c` holds, and `p` itself otherwise.
   */
  lemma Mark(p: Props, dfsProps: Props, found: set<Property>, c: bool, q: Property, p': Props)
    requires !FromDfs(q) && Encodes(p, dfsProps, found)
    requires p' == Raise(p, c, Found(q), Initial(q))
    ensures Encodes(p', dfsProps, found + (if c then {q} else {}))
  {
    if c {
      EncodeFound(p, dfsProps, found, q);
    } else {
      assert found + {} == found;
    }
  }

  // ---------------------------------------------------------------------------
  // What the scan finds.

  predicate RepeatsILabel<W>(trs: seq<Tr<W>>, k: nat)
    requires k < |trs|
  {
    exists i :: 0 <= i < k && trs[i].ilabel == trs[k].ilabel
  }

  predicate RepeatsOLabel<W>(trs: seq<Tr<W>>, k: nat)
    requires k < |trs|
  {
    exists i :: 0 <= i < k && trs[i].olabel == trs[k].olabel
  }

  /** Some state before `s` is final. */
  predicate FinalBefore<W>(states: seq<VectorFstState<W>>, s: nat)
    requires s <= |states|
  {
    exists f :: 0 <= f < s && states[f].final_weight.Some?
  }

  /** The properties the scan decides. */
  const SCANNED: set<Property> :=
    {Acceptor, IDeterministic, ODeterministic, Epsilons, IEpsilons, OEpsilons, ILabelSorted, OLabelSorted,
     Weighted, WeightedCycles, TopSorted, String}

  /** Whether transition `k` is an instance of the label property `q`. */
  predicate LabelCheck<W>(trs: seq<Tr<W>>, k: nat, q: Property)
    requires k < |trs|
  {
    match q
    case IDeterministic => RepeatsILabel(trs, k)
    case ODeterministic => RepeatsOLabel(trs, k)
    case Acceptor => trs[k].ilabel != trs[k].olabel
    case Epsilons => trs[k].ilabel == EPS_LABEL && trs[k].olabel == EPS_LABEL
    case IEpsilons => trs[k].ilabel == EPS_LABEL
    case OEpsilons => trs[k].olabel == EPS_LABEL
    case _ => false
  }

  /** Whether transition `k` of state `s` is an instance of the sorting, weight or string property `q`. */
  predicate OrderCheck<W(==)>(trs: seq<Tr<W>>, k: nat, s: StateId, q: Property, zero: W, one: W, scc: seq<nat>)
    requires k < |trs| && s < |scc| && trs[k].nextstate < |scc|
  {
    match q
    case ILabelSorted => k > 0 && trs[k].ilabel < trs[k - 1].ilabel
    case OLabelSorted => k > 0 && trs[k].olabel < trs[k - 1].olabel
    case Weighted => NonTrivial(trs[k].weight, zero, one)
    case WeightedCycles => NonTrivial(trs[k].weight, zero, one) && scc[s] == scc[trs[k].nextstate]
    case TopSorted => trs[k].nextstate <= s
    case String => trs[k].nextstate != s + 1
    case _ => false
  }

  /** Whether transition `k` of state `s` is an instance of `q`: the check the scan makes for `q`. */
  predicate TrCheck<W(==)>(trs: seq<Tr<W>>, k: nat, s: StateId, q: Property, zero: W, one: W, scc: seq<nat>)
    requires k < |trs| && s < |scc| && trs[k].nextstate < |scc|
  {
    LabelCheck(trs, k, q) || OrderCheck(trs, k, s, q, zero, one, scc)
  }

  /** Whether state `s` itself is an instance of `q`. */
  predicate StateCheck<W(==)>(states: seq<VectorFstState<W>>, s: nat, q: Property, one: W)
    requires s < |states|
  {
    match q
    case String => FinalBefore(states, s) || (states[s].final_weight.None? && |states[s].trs| != 1)
    case Weighted => states[s].final_weight.Some? && states[s].final_weight.value != one
    case _ => false
  }

  /** The properties for which transition `k` of state `s` is an instance. */
  function TrFinds<W(==)>(trs: seq<Tr<W>>, k: nat, s: StateId, zero: W, one: W, scc: seq<nat>): set<Property>
    requires k < |trs| && s < |scc| && trs[k].nextstate < |scc|
  {
    set q | q in SCANNED && TrCheck(trs, k, s, q, zero, one, scc)
  }

  /** The properties for which state `s` itself is an instance. */
  function StateFinds<W(==)>(states: seq<VectorFstState<W>>, s: nat, one: W): set<Property>
    requires s < |states|
  {
    set q | q in SCANNED && StateCheck(states, s, q, one)
  }

  /** `found` with the properties found on the first `k` transitions of state `s`. */
  function FoundTrs<W(==)>(states: seq<VectorFstState<W>>, s: nat, k: nat, zero: W, one: W, scc: seq<nat>,
                           found: set<Property>): set<Property>
    requires s < |states| && k <= |states[s].trs| && |scc| == |states| && TrsInRange(states)
  {
    if k == 0 then found
    else FoundTrs(states, s, k - 1, zero, one, scc, found) + TrFinds(states[s].trs, k - 1, s, zero, one, scc)
  }

  /** The properties with an instance among the first `n` states. */
  function FoundStates<W(==)>(states: seq<VectorFstState<W>>, n: nat, zero: W, one: W, scc: seq<nat>): set<Property>
    requires n <= |states| && |scc| == |states| && TrsInRange(states)
  {
    if n == 0 then {}
    else
      var before := FoundStates(states, n - 1, zero, one, scc);
      FoundTrs(states, n - 1, |states[n - 1].trs|, zero, one, scc, before) + StateFinds(states, n - 1, one)
  }

  /** Every property with an instance somewhere in the FST, the start state included. */
  function FoundAll<W(==)>(states: seq<VectorFstState<W>>, start: Option<StateId>, zero: W, one: W, scc: seq<nat>): set<Property>
    requires |scc| == |states| && TrsInRange(states)
  {
    FoundStates(states, |states|, zero, one, scc) + (if start.Some? && start.value != 0 then {String} else {})
  }

  // The scan adds to `found` one check at a time, in the order of the source.

  /** The determinism, acceptor and epsilon checks on transition `k`, one after the other. */
  function AddLabelFinds<W>(found: set<Property>, trs: seq<Tr<W>>, k: nat): set<Property>
    requires k < |trs|
  {
    found
    + (if RepeatsILabel(trs, k) then {IDeterministic} else {})
    + (if RepeatsOLabel(trs, k) then {ODeterministic} else {})
    + (if trs[k].ilabel != trs[k].olabel then {Acceptor} else {})
    + (if trs[k].ilabel == EPS_LABEL && trs[k].olabel == EPS_LABEL then {Epsilons} else {})
    + (if trs[k].ilabel == EPS_LABEL then {IEpsilons} else {})
    + (if trs[k].olabel == EPS_LABEL then {OEpsilons} else {})
  }

  /** The sorting, weight, topological-order and string checks on transition `k` of state `s`, one after the other. */
  function AddOrderFinds<W(==)>(found: set<Property>, trs: seq<Tr<W>>, k: nat, s: StateId, zero: W, one: W,
                                scc: seq<nat>): set<Property>
    requires k < |trs| && s < |scc| && trs[k].nextstate < |scc|
  {
    found
    + (if k > 0 && trs[k].ilabel < trs[k - 1].ilabel then {ILabelSorted} else {})
    + (if k > 0 && trs[k].olabel < trs[k - 1].olabel then {OLabelSorted} else {})
    + (if NonTrivial(trs[k].weight, zero, one) then {Weighted} else {})
    + (if NonTrivial(trs[k].weight, zero, one) && scc[s] == scc[trs[k].nextstate] then {WeightedCycles} else {})
    + (if trs[k].nextstate <= s then {TopSorted} else {})
    + (if trs[k].nextstate != s + 1 then {String} else {})
  }

  lemma AddLabelFindsHas<W>(found: set<Property>, trs: seq<Tr<W>>, k: nat, q: Property)
    requires k < |trs|
    ensures q in AddLabelFinds(found, trs, k) <==> q in found || LabelCheck(trs, k, q)
  {
  }

  lemma AddOrderFindsHas<W>(found: set<Property>, trs: seq<Tr<W>>, k: nat, s: StateId, zero: W, one: W,
                            scc: seq<nat>, q: Property)
    requires k < |trs| && s < |scc| && trs[k].nextstate < |scc|
    ensures q in AddOrderFinds(found, trs, k, s, zero, one, scc) <==> q in found || OrderCheck(trs, k, s, q, zero, one, scc)
  {
  }

  /** The checks on state `s` itself, one after the other. */
  function AddStateFinds<W(==)>(found: set<Property>, states: seq<VectorFstState<W>>, s: nat, one: W): set<Property>
    requires s < |states|
  {
    var f := found + (if FinalBefore(states, s) then {String} else {});
    match states[s].final_weight
    case Some(w) => f + (if w != one then {Weighted} else {})
    case None => f + (if |states[s].trs| != 1 then {String} else {})
  }

  /** The checks on a state add exactly the properties it is an instance of. */
  lemma StateSteps<W>(found: set<Property>, states: seq<VectorFstState<W>>, s: nat, one: W)
    requires s < |states|
    ensures AddStateFinds(found, states, s, one) == found + StateFinds(states, s, one)
  {
    forall q ensures q in AddStateFinds(found, states, s, one) <==> q in found + StateFinds(states, s, one) {
      match q {
        case String =>
        case Weighted =>
        case _ =>
      }
    }
  }

  /** The twelve checks on a transition add exactly the properties it is an instance of. */
  lemma TrSteps<W>(found: set<Property>, trs: seq<Tr<W>>, k: nat, s: StateId, zero: W, one: W, scc: seq<nat>)
    requires k < |trs| && s < |scc| && trs[k].nextstate < |scc|
    ensures AddOrderFinds(AddLabelFinds(found, trs, k), trs, k, s, zero, one, scc)
            == found + TrFinds(trs, k, s, zero, one, scc)
  {
    var f := AddLabelFinds(found, trs, k);
    forall q ensures q in AddOrderFinds(f, trs, k, s, zero, one, scc) <==> q in found + TrFinds(trs, k, s, zero, one, scc) {
      AddLabelFindsHas(found, trs, k, q);
      AddOrderFindsHas(f, trs, k, s, zero, one, scc, q);
    }
  }

  /** The bits before the scan: the DFS bits and every scanned property on its initial side. */
  lemma StartEncodes(dfsProps: Props)
    ensures Encodes(dfsProps * DFS_BITS + {ACCEPTOR, NO_EPSILONS, NO_I_EPSILONS, NO_O_EPSILONS, I_LABEL_SORTED,
                                           O_LABEL_SORTED, UNWEIGHTED, TOP_SORTED, STRING, I_DETERMINISTIC,
                                           O_DETERMINISTIC, UNWEIGHTED_CYCLES}, dfsProps, {})
  {
    var p := dfsProps * DFS_BITS + {ACCEPTOR, NO_EPSILONS, NO_I_EPSILONS, NO_O_EPSILONS, I_LABEL_SORTED,
                                    O_LABEL_SORTED, UNWEIGHTED, TOP_SORTED, STRING, I_DETERMINISTIC,
                                    O_DETERMINISTIC, UNWEIGHTED_CYCLES};
    forall b: Bit ensures b in p <==> if FromDfs(b.prop) then b in dfsProps else b != Found(b.prop) {
      match b.prop {
        case Cyclic => assert b == CYCLIC || b == ACYCLIC;
        case InitialCyclic => assert b == INITIAL_CYCLIC || b == INITIAL_ACYCLIC;
        case Accessible => assert b == ACCESSIBLE || b == NOT_ACCESSIBLE;
        case Coaccessible => assert b == COACCESSIBLE || b == NOT_COACCESSIBLE;
        case _ =>
      }
    }
  }

  // ---------------------------------------------------------------------------
  // The scan.

  method ComputeFstProperties<W(==)>(states: seq<VectorFstState<W>>, start: Option<StateId>, zero: W, one: W,
                                     dfsProps: Props, scc: seq<nat>) returns (compProps: Props)
    requires |scc| == |states| && TrsInRange(states)
    ensures Computed(compProps, states, start, zero, one, dfsProps, scc)
  {
    compProps := dfsProps * DFS_BITS;
    compProps := compProps + {ACCEPTOR, NO_EPSILONS, NO_I_EPSILONS, NO_O_EPSILONS, I_LABEL_SORTED, O_LABEL_SORTED,
                              UNWEIGHTED, TOP_SORTED, STRING, I_DETERMINISTIC, O_DETERMINISTIC, UNWEIGHTED_CYCLES};
    StartEncodes(dfsProps);
    var nfinal := 0;
    for s := 0 to |states|
      invariant Encodes(compProps, dfsProps, FoundStates(states, s, zero, one, scc))
      invariant nfinal > 0 <==> FinalBefore(states, s)
    {
      compProps, nfinal := ScanState(states, s, zero, one, scc, dfsProps, compProps,
                                     FoundStates(states, s, zero, one, scc), nfinal);
    }
    ghost var p := compProps;
    if start.Some? {
      if start.value != 0 {
        compProps := compProps + {NOT_STRING} - {STRING};
      }
    }
    Mark(p, dfsProps, FoundStates(states, |states|, zero, one, scc), start.Some? && start.value != 0, String, compProps);
  }

  /** One turn of the outer loop: the transitions of state `s`, then its final weight. */
  method ScanState<W(==)>(states: seq<VectorFstState<W>>, s: nat, zero: W, one: W, scc: seq<nat>,
                          dfsProps: Props, props: Props, ghost before: set<Property>, nfinal: nat)
    returns (compProps: Props, nfinal': nat)
    requires s < |states| && |scc| == |states| && TrsInRange(states)
    requires Encodes(props, dfsProps, before)
    requires nfinal > 0 <==> FinalBefore(states, s)
    ensures Encodes(compProps, dfsProps, FoundTrs(states, s, |states[s].trs|, zero, one, scc, before)
                                         + StateFinds(states, s, one))
    ensures nfinal' > 0 <==> FinalBefore(states, s + 1)
  {
    compProps := ScanTrs(states, s, zero, one, scc, dfsProps, props, before);
    ghost var found := FoundTrs(states, s, |states[s].trs|, zero, one, scc, before);
    ghost var p := compProps;
    compProps := Raise(compProps, nfinal > 0, NOT_STRING, STRING);
    Mark(p, dfsProps, found, FinalBefore(states, s), String, compProps);
    found, p := found + (if FinalBefore(states, s) then {String} else {}), compProps;
    nfinal' := nfinal;
    if states[s].final_weight.Some? {
      var finalWeight := states[s].final_weight.value;
      compProps := Raise(compProps, finalWeight != one, WEIGHTED, UNWEIGHTED);
      Mark(p, dfsProps, found, finalWeight != one, Weighted, compProps);
      found := found + (if finalWeight != one then {Weighted} else {});
      nfinal' := nfinal + 1;
    } else {
      compProps := Raise(compProps, |states[s].trs| != 1, NOT_STRING, STRING);
      Mark(p, dfsProps, found, |states[s].trs| != 1, String, compProps);
      found := found + (if |states[s].trs| != 1 then {String} else {});
    }
    StateSteps(FoundTrs(states, s, |states[s].trs|, zero, one, scc, before), states, s, one);
    assert FinalBefore(states, s + 1) <==> FinalBefore(states, s) || states[s].final_weight.Some?;
  }

  /** The input labels of `trs`, as the `ilabels` hash set collects them. */
  function ILabelsOf<W>(trs: seq<Tr<W>>): set<Label>
  {
    if trs == [] then {} else ILabelsOf(trs[..|trs| - 1]) + {trs[|trs| - 1].ilabel}
  }

  /** The output labels of `trs`, as the `olabels` hash set collects them. */
  function OLabelsOf<W>(trs: seq<Tr<W>>): set<Label>
  {
    if trs == [] then {} else OLabelsOf(trs[..|trs| - 1]) + {trs[|trs| - 1].olabel}
  }

  lemma {:induction false} LabelsOfHas<W>(trs: seq<Tr<W>>, l: Label)
    ensures l in ILabelsOf(trs) <==> exists i :: 0 <= i < |trs| && trs[i].ilabel == l
    ensures l in OLabelsOf(trs) <==> exists i :: 0 <= i < |trs| && trs[i].olabel == l
    decreases |trs|
  {
    if trs != [] {
      var p := trs[..|trs| - 1];
      LabelsOfHas(p, l);
      if exists i :: 0 <= i < |p| && p[i].ilabel == l {
        var i :| 0 <= i < |p| && p[i].ilabel == l;
        assert trs[i].ilabel == l;
      }
      if exists i :: 0 <= i < |p| && p[i].olabel == l {
        var i :| 0 <= i < |p| && p[i].olabel == l;
        assert trs[i].olabel == l;
      }
      if exists i :: 0 <= i < |trs| && trs[i].ilabel == l {
        var i :| 0 <= i < |trs| && trs[i].ilabel == l;
        if i < |p| { assert p[i].ilabel == l; }
      }
      if exists i :: 0 <= i < |trs| && trs[i].olabel == l {
        var i :| 0 <= i < |trs| && trs[i].olabel == l;
        if i < |p| { assert p[i].olabel == l; }
      }
    }
  }

  /** The label sets of the transitions before `k` say whether `k` repeats a label. */
  lemma LabelSetsRepeat<W>(trs: seq<Tr<W>>, k: nat)
    requires k < |trs|
    ensures trs[k].ilabel in ILabelsOf(trs[..k]) <==> RepeatsILabel(trs, k)
    ensures trs[k].olabel in OLabelsOf(trs[..k]) <==> RepeatsOLabel(trs, k)
  {
    LabelsOfHas(trs[..k], trs[k].ilabel);
    LabelsOfHas(trs[..k], trs[k].olabel);
    if RepeatsILabel(trs, k) {
      var i :| 0 <= i < k && trs[i].ilabel == trs[k].ilabel;
      assert trs[..k][i] == trs[i];
    }
    if RepeatsOLabel(trs, k) {
      var i :| 0 <= i < k && trs[i].olabel == trs[k].olabel;
      assert trs[..k][i] == trs[i];
    }
  }

  /** The inner loop over the transitions of state `s`, with its own label sets and previous transition. */
  method ScanTrs<W(==)>(states: seq<VectorFstState<W>>, s: nat, zero: W, one: W, scc: seq<nat>,
                        dfsProps: Props, props: Props, ghost before: set<Property>) returns (compProps: Props)
    requires s < |states| && |scc| == |states| && TrsInRange(states)
    requires Encodes(props, dfsProps, before)
    ensures Encodes(compProps, dfsProps, FoundTrs(states, s, |states[s].trs|, zero, one, scc, before))
  {
    compProps := props;
    var trs := states[s].trs;
    var ilabels: set<Label> := {};
    var olabels: set<Label> := {};
    var prevTr: Option<Tr<W>> := None;
    for k := 0 to |trs|
      invariant Encodes(compProps, dfsProps, FoundTrs(states, s, k, zero, one, scc, before))
      invariant ilabels == ILabelsOf(trs[..k]) && olabels == OLabelsOf(trs[..k])
      invariant prevTr == if k == 0 then None else Some(trs[k - 1])
    {
      var tr := trs[k];
      assert tr.nextstate < |scc| by { assert states[s].trs[k] == tr; }
      LabelSetsRepeat(trs, k);
      compProps := ScanTr(trs, k, s, zero, one, scc, dfsProps, compProps, FoundTrs(states, s, k, zero, one, scc, before),
                          ilabels, olabels, prevTr);
      prevTr := Some(tr);
      assert trs[..k + 1][..k] == trs[..k];
      ilabels := ilabels + {tr.ilabel};
      olabels := olabels + {tr.olabel};
    }
    assert trs[..|trs|] == trs;
  }

  /** The body of the inner loop: the checks on transition `k` of state `s`. */
  method ScanTr<W(==)>(trs: seq<Tr<W>>, k: nat, s: StateId, zero: W, one: W, scc: seq<nat>,
                       dfsProps: Props, props: Props, ghost before: set<Property>,
                       ilabels: set<Label>, olabels: set<Label>, prevTr: Option<Tr<W>>) returns (compProps: Props)
    requires k < |trs| && s < |scc| && trs[k].nextstate < |scc|
    requires Encodes(props, dfsProps, before)
    requires trs[k].ilabel in ilabels <==> RepeatsILabel(trs, k)
    requires trs[k].olabel in olabels <==> RepeatsOLabel(trs, k)
    requires prevTr == if k == 0 then None else Some(trs[k - 1])
    ensures Encodes(compProps, dfsProps, before + TrFinds(trs, k, s, zero, one, scc))
  {
    compProps := ScanLabels(trs, k, dfsProps, props, before, ilabels, olabels);
    compProps := ScanOrder(trs, k, s, zero, one, scc, dfsProps, compProps, AddLabelFinds(before, trs, k), prevTr);
    TrSteps(before, trs, k, s, zero, one, scc);
  }

  /** The determinism, acceptor and epsilon checks on transition `k`. */
  method ScanLabels<W>(trs: seq<Tr<W>>, k: nat, dfsProps: Props, props: Props, ghost before: set<Property>,
                       ilabels: set<Label>, olabels: set<Label>) returns (compProps: Props)
    requires k < |trs|
    requires Encodes(props, dfsProps, before)
    requires trs[k].ilabel in ilabels <==> RepeatsILabel(trs, k)
    requires trs[k].olabel in olabels <==> RepeatsOLabel(trs, k)
    ensures Encodes(compProps, dfsProps, AddLabelFinds(before, trs, k))
  {
    var tr := trs[k];
    ghost var found := before;
    ghost var p := props;
    compProps := props;
    compProps := Raise(compProps, tr.ilabel in ilabels, NOT_I_DETERMINISTIC, I_DETERMINISTIC);
    Mark(p, dfsProps, found, RepeatsILabel(trs, k), IDeterministic, compProps);
    found, p := found + (if RepeatsILabel(trs, k) then {IDeterministic} else {}), compProps;
    compProps := Raise(compProps, tr.olabel in olabels, NOT_O_DETERMINISTIC, O_DETERMINISTIC);
    Mark(p, dfsProps, found, RepeatsOLabel(trs, k), ODeterministic, compProps);
    found, p := found + (if RepeatsOLabel(trs, k) then {ODeterministic} else {}), compProps;
    compProps := Raise(compProps, tr.ilabel != tr.olabel, NOT_ACCEPTOR, ACCEPTOR);
    Mark(p, dfsProps, found, trs[k].ilabel != trs[k].olabel, Acceptor, compProps);
    found, p := found + (if trs[k].ilabel != trs[k].olabel then {Acceptor} else {}), compProps;
    compProps := Raise(compProps, tr.ilabel == 0 && tr.olabel == 0, EPSILONS, NO_EPSILONS);
    Mark(p, dfsProps, found, trs[k].ilabel == EPS_LABEL && trs[k].olabel == EPS_LABEL, Epsilons, compProps);
    found, p := found + (if trs[k].ilabel == EPS_LABEL && trs[k].olabel == EPS_LABEL then {Epsilons} else {}), compProps;
    compProps := Raise(compProps, tr.ilabel == 0, I_EPSILONS, NO_I_EPSILONS);
    Mark(p, dfsProps, found, trs[k].ilabel == EPS_LABEL, IEpsilons, compProps);
    found, p := found + (if trs[k].ilabel == EPS_LABEL then {IEpsilons} else {}), compProps;
    compProps := Raise(compProps, tr.olabel == 0, O_EPSILONS, NO_O_EPSILONS);
    Mark(p, dfsProps, found, trs[k].olabel == EPS_LABEL, OEpsilons, compProps);
    found := found + (if trs[k].olabel == EPS_LABEL then {OEpsilons} else {});
    assert found == AddLabelFinds(before, trs, k);
  }

  /** The sorting, weight, topological-order and string checks on transition `k` of state `s`. */
  method ScanOrder<W(==)>(trs: seq<Tr<W>>, k: nat, s: StateId, zero: W, one: W, scc: seq<nat>,
                          dfsProps: Props, props: Props, ghost before: set<Property>, prevTr: Option<Tr<W>>)
    returns (compProps: Props)
    requires k < |trs| && s < |scc| && trs[k].nextstate < |scc|
    requires Encodes(props, dfsProps, before)
    requires prevTr == if k == 0 then None else Some(trs[k - 1])
    ensures Encodes(compProps, dfsProps, AddOrderFinds(before, trs, k, s, zero, one, scc))
  {
    var tr := trs[k];
    var nonTrivial := tr.weight != one && tr.weight != zero;
    ghost var found := before;
    ghost var p := props;
    compProps := props;
    compProps := Raise(compProps, prevTr.Some? && tr.ilabel < prevTr.value.ilabel, NOT_I_LABEL_SORTED, I_LABEL_SORTED);
    Mark(p, dfsProps, found, k > 0 && trs[k].ilabel < trs[k - 1].ilabel, ILabelSorted, compProps);
    found, p := found + (if k > 0 && trs[k].ilabel < trs[k - 1].ilabel then {ILabelSorted} else {}), compProps;
    compProps := Raise(compProps, prevTr.Some? && tr.olabel < prevTr.value.olabel, NOT_O_LABEL_SORTED, O_LABEL_SORTED);
    Mark(p, dfsProps, found, k > 0 && trs[k].olabel < trs[k - 1].olabel, OLabelSorted, compProps);
    found, p := found + (if k > 0 && trs[k].olabel < trs[k - 1].olabel then {OLabelSorted} else {}), compProps;
    compProps := Raise(compProps, nonTrivial, WEIGHTED, UNWEIGHTED);
    Mark(p, dfsProps, found, NonTrivial(trs[k].weight, zero, one), Weighted, compProps);
    found, p := found + (if NonTrivial(trs[k].weight, zero, one) then {Weighted} else {}), compProps;
    compProps := Raise(compProps, nonTrivial && scc[s] == scc[tr.nextstate], WEIGHTED_CYCLES, UNWEIGHTED_CYCLES);
    Mark(p, dfsProps, found, NonTrivial(trs[k].weight, zero, one) && scc[s] == scc[trs[k].nextstate], WeightedCycles, compProps);
    found, p := found + (if NonTrivial(trs[k].weight, zero, one) && scc[s] == scc[trs[k].nextstate] then {WeightedCycles} else {}), compProps;
    compProps := Raise(compProps, tr.nextstate <= s, NOT_TOP_SORTED, TOP_SORTED);
    Mark(p, dfsProps, found, trs[k].nextstate <= s, TopSorted, compProps);
    found, p := found + (if trs[k].nextstate <= s then {TopSorted} else {}), compProps;
    compProps := Raise(compProps, tr.nextstate != s + 1, NOT_STRING, STRING);
    Mark(p, dfsProps, found, trs[k].nextstate != s + 1, String, compProps);
    found := found + (if trs[k].nextstate != s + 1 then {String} else {});
    assert found == AddOrderFinds(before, trs, k, s, zero, one, scc);
  }

  // ---------------------------------------------------------------------------
  // What the result means.

  /** Some transition of state `s` before the `k`-th is an instance of `q`. */
  ghost predicate TrCheckBefore<W>(states: seq<VectorFstState<W>>, s: nat, k: nat, q: Property, zero: W, one: W,
                                       scc: seq<nat>)
    requires s < |states| && k <= |states[s].trs| && |scc| == |states| && TrsInRange(states)
  {
    exists j :: 0 <= j < k && TrCheck(states[s].trs, j, s, q, zero, one, scc)
  }

  lemma {:induction false} FoundTrsHas<W>(states: seq<VectorFstState<W>>, s: nat, k: nat, zero: W, one: W,
                                              scc: seq<nat>, found: set<Property>, q: Property)
    requires s < |states| && k <= |states[s].trs| && |scc| == |states| && TrsInRange(states)
    ensures q in FoundTrs(states, s, k, zero, one, scc, found) <==>
              q in found || TrCheckBefore(states, s, k, q, zero, one, scc)
    decreases k
  {
    if k > 0 {
      FoundTrsHas(states, s, k - 1, zero, one, scc, found, q);
      if TrCheckBefore(states, s, k, q, zero, one, scc) {
        var j :| 0 <= j < k && TrCheck(states[s].trs, j, s, q, zero, one, scc);
        if j < k - 1 {
          assert TrCheckBefore(states, s, k - 1, q, zero, one, scc);
        }
      }
      if TrCheckBefore(states, s, k - 1, q, zero, one, scc) {
        var j :| 0 <= j < k - 1 && TrCheck(states[s].trs, j, s, q, zero, one, scc);
        assert TrCheckBefore(states, s, k, q, zero, one, scc);
      }
    }
  }

  /** Some transition among the first `n` states is an instance of `q`. */
  ghost predicate SomeTrCheck<W>(states: seq<VectorFstState<W>>, n: nat, q: Property, zero: W, one: W, scc: seq<nat>)
    requires n <= |states| && |scc| == |states| && TrsInRange(states)
  {
    exists s :: 0 <= s < n && TrCheckBefore(states, s, |states[s].trs|, q, zero, one, scc)
  }

  /** Some state among the first `n` is an instance of `q`. */
  ghost predicate SomeStateCheck<W>(states: seq<VectorFstState<W>>, n: nat, q: Property, one: W)
    requires n <= |states|
  {
    exists s :: 0 <= s < n && StateCheck(states, s, q, one)
  }

  lemma {:induction false} FoundStatesHas<W>(states: seq<VectorFstState<W>>, n: nat, zero: W, one: W,
                                                 scc: seq<nat>, q: Property)
    requires n <= |states| && |scc| == |states| && TrsInRange(states)
    ensures q in FoundStates(states, n, zero, one, scc) <==>
              SomeTrCheck(states, n, q, zero, one, scc) || SomeStateCheck(states, n, q, one)
    decreases n
  {
    if n > 0 {
      var m := n - 1;
      var before := FoundStates(states, m, zero, one, scc);
      var k := |states[m].trs|;
      FoundStatesHas(states, m, zero, one, scc, q);
      FoundTrsHas(states, m, k, zero, one, scc, before, q);
      SomeChecksStep(states, n, q, zero, one, scc);
    }
  }

  lemma SomeChecksStep<W>(states: seq<VectorFstState<W>>, n: nat, q: Property, zero: W, one: W, scc: seq<nat>)
    requires 0 < n <= |states| && |scc| == |states| && TrsInRange(states)
    ensures SomeTrCheck(states, n, q, zero, one, scc) <==>
              SomeTrCheck(states, n - 1, q, zero, one, scc) ||
              TrCheckBefore(states, n - 1, |states[n - 1].trs|, q, zero, one, scc)
    ensures SomeStateCheck(states, n, q, one) <==>
              SomeStateCheck(states, n - 1, q, one) || StateCheck(states, n - 1, q, one)
  {
    var m := n - 1;
    if SomeTrCheck(states, n, q, zero, one, scc) {
      var s :| 0 <= s < n && TrCheckBefore(states, s, |states[s].trs|, q, zero, one, scc);
      if s < m {
        assert SomeTrCheck(states, m, q, zero, one, scc);
      }
    }
    if TrCheckBefore(states, m, |states[m].trs|, q, zero, one, scc) {
      assert SomeTrCheck(states, n, q, zero, one, scc);
    }
    if SomeStateCheck(states, n, q, one) {
      var s :| 0 <= s < n && StateCheck(states, s, q, one);
      if s < m {
        assert SomeStateCheck(states, m, q, one);
      }
    }
    if StateCheck(states, m, q, one) {
      assert SomeStateCheck(states, n, q, one);
    }
  }

  /**
   * A property is found exactly when some transition or some state is an
   * instance of it, or, for STRING, when the start state is not state 0.
   */
  lemma FoundAllHas<W>(states: seq<VectorFstState<W>>, start: Option<StateId>, zero: W, one: W,
                           scc: seq<nat>, q: Property)
    requires |scc| == |states| && TrsInRange(states)
    ensures q in FoundAll(states, start, zero, one, scc) <==>
              || SomeTrCheck(states, |states|, q, zero, one, scc)
              || SomeStateCheck(states, |states|, q, one)
              || (q == String && start.Some? && start.value != 0)
  {
    FoundStatesHas(states, |states|, zero, one, scc, q);
  }

  // ---------------------------------------------------------------------------
  // The result, property by property.

  /** Some transition of the FST is an instance of `q`. */
  ghost predicate AnyTr<W>(states: seq<VectorFstState<W>>, q: Property, zero: W, one: W, scc: seq<nat>)
    requires |scc| == |states| && TrsInRange(states)
  {
    exists s, k :: 0 <= s < |states| && 0 <= k < |states[s].trs| && TrCheck(states[s].trs, k, s, q, zero, one, scc)
  }

  /** The result of `ComputeFstProperties` on this FST, SCC numbering and visitor bits. */
  ghost predicate Computed<W>(r: Props, states: seq<VectorFstState<W>>, start: Option<StateId>, zero: W, one: W,
                              dfsProps: Props, scc: seq<nat>)
  {
    |scc| == |states| && TrsInRange(states) && Encodes(r, dfsProps, FoundAll(states, start, zero, one, scc))
  }

  /**
   * A scanned property holds its found bit exactly when the FST has an
   * instance of it, and its initial bit exactly when it has none.
   */
  lemma ComputedBit<W>(r: Props, states: seq<VectorFstState<W>>, start: Option<StateId>, zero: W, one: W,
                       dfsProps: Props, scc: seq<nat>, q: Property)
    requires Computed(r, states, start, zero, one, dfsProps, scc) && !FromDfs(q)
    ensures Found(q) in r <==>
              || AnyTr(states, q, zero, one, scc)
              || SomeStateCheck(states, |states|, q, one)
              || (q == String && start.Some? && start.value != 0)
    ensures Initial(q) in r <==> !(Found(q) in r)
  {
    FoundAllHas(states, start, zero, one, scc, q);
    if SomeTrCheck(states, |states|, q, zero, one, scc) {
      var s :| 0 <= s < |states| && TrCheckBefore(states, s, |states[s].trs|, q, zero, one, scc);
      var k :| 0 <= k < |states[s].trs| && TrCheck(states[s].trs, k, s, q, zero, one, scc);
    }
    if AnyTr(states, q, zero, one, scc) {
      var s, k :| 0 <= s < |states| && 0 <= k < |states[s].trs| && TrCheck(states[s].trs, k, s, q, zero, one, scc);
      assert TrCheckBefore(states, s, |states[s].trs|, q, zero, one, scc);
    }
    assert Initial(q) != Found(q);
  }

  /** ACCEPTOR: every transition has equal input and output labels; NOT_ACCEPTOR: some transition does not. */
  lemma AcceptorBits<W>(r: Props, states: seq<VectorFstState<W>>, start: Option<StateId>, zero: W, one: W,
                        dfsProps: Props, scc: seq<nat>)
    requires Computed(r, states, start, zero, one, dfsProps, scc)
    ensures ACCEPTOR in r <==>
              forall s, k :: 0 <= s < |states| && 0 <= k < |states[s].trs| ==>
                states[s].trs[k].ilabel == states[s].trs[k].olabel
    ensures NOT_ACCEPTOR in r <==> !(ACCEPTOR in r)
  {
    ComputedBit(r, states, start, zero, one, dfsProps, scc, Acceptor);
    forall s, k | 0 <= s < |states| && 0 <= k < |states[s].trs|
      ensures TrCheck(states[s].trs, k, s, Acceptor, zero, one, scc) <==>
                states[s].trs[k].ilabel != states[s].trs[k].olabel
    {
    }
  }

  /**
   * I_DETERMINISTIC: no state has two transitions with the same input label;
   * NOT_I_DETERMINISTIC: some state has.
   */
  lemma IDeterministicBits<W>(r: Props, states: seq<VectorFstState<W>>, start: Option<StateId>, zero: W, one: W,
                              dfsProps: Props, scc: seq<nat>)
    requires Computed(r, states, start, zero, one, dfsProps, scc)
    ensures I_DETERMINISTIC in r <==>
              forall s, i, j :: 0 <= s < |states| && 0 <= i < j < |states[s].trs| ==>
                states[s].trs[i].ilabel != states[s].trs[j].ilabel
    ensures NOT_I_DETERMINISTIC in r <==> !(I_DETERMINISTIC in r)
  {
    ComputedBit(r, states, start, zero, one, dfsProps, scc, IDeterministic);
    if AnyTr(states, IDeterministic, zero, one, scc) {
      var s, k :| 0 <= s < |states| && 0 <= k < |states[s].trs| &&
                  TrCheck(states[s].trs, k, s, IDeterministic, zero, one, scc);
      var i :| 0 <= i < k && states[s].trs[i].ilabel == states[s].trs[k].ilabel;
    }
    if exists s, i, j :: 0 <= s < |states| && 0 <= i < j < |states[s].trs| &&
                         states[s].trs[i].ilabel == states[s].trs[j].ilabel {
      var s, i, j :| 0 <= s < |states| && 0 <= i < j < |states[s].trs| &&
                     states[s].trs[i].ilabel == states[s].trs[j].ilabel;
      assert TrCheck(states[s].trs, j, s, IDeterministic, zero, one, scc);
    }
  }

  /**
   * O_DETERMINISTIC: no state has two transitions with the same output label;
   * NOT_O_DETERMINISTIC: some state has.
   */
  lemma ODeterministicBits<W>(r: Props, states: seq<VectorFstState<W>>, start: Option<StateId>, zero: W, one: W,
                              dfsProps: Props, scc: seq<nat>)
    requires Computed(r, states, start, zero, one, dfsProps, scc)
    ensures O_DETERMINISTIC in r <==>
              forall s, i, j :: 0 <= s < |states| && 0 <= i < j < |states[s].trs| ==>
                states[s].trs[i].olabel != states[s].trs[j].olabel
    ensures NOT_O_DETERMINISTIC in r <==> !(O_DETERMINISTIC in r)
  {
    ComputedBit(r, states, start, zero, one, dfsProps, scc, ODeterministic);
    if AnyTr(states, ODeterministic, zero, one, scc) {
      var s, k :| 0 <= s < |states| && 0 <= k < |states[s].trs| &&
                  TrCheck(states[s].trs, k, s, ODeterministic, zero, one, scc);
      var i :| 0 <= i < k && states[s].trs[i].olabel == states[s].trs[k].olabel;
    }
    if exists s, i, j :: 0 <= s < |states| && 0 <= i < j < |states[s].trs| &&
                         states[s].trs[i].olabel == states[s].trs[j].olabel {
      var s, i, j :| 0 <= s < |states| && 0 <= i < j < |states[s].trs| &&
                     states[s].trs[i].olabel == states[s].trs[j].olabel;
      assert TrCheck(states[s].trs, j, s, ODeterministic, zero, one, scc);
    }
  }

  /** EPSILONS: some transition has both labels epsilon; NO_EPSILONS: none has. */
  lemma EpsilonsBits<W>(r: Props, states: seq<VectorFstState<W>>, start: Option<StateId>, zero: W, one: W,
                        dfsProps: Props, scc: seq<nat>)
    requires Computed(r, states, start, zero, one, dfsProps, scc)
    ensures EPSILONS in r <==>
              exists s, k :: 0 <= s < |states| && 0 <= k < |states[s].trs| &&
                states[s].trs[k].ilabel == EPS_LABEL && states[s].trs[k].olabel == EPS_LABEL
    ensures NO_EPSILONS in r <==> !(EPSILONS in r)
  {
    ComputedBit(r, states, start, zero, one, dfsProps, scc, Epsilons);
    forall s, k | 0 <= s < |states| && 0 <= k < |states[s].trs|
      ensures TrCheck(states[s].trs, k, s, Epsilons, zero, one, scc) <==>
                states[s].trs[k].ilabel == EPS_LABEL && states[s].trs[k].olabel == EPS_LABEL
    {
    }
  }

  /** I_EPSILONS: some transition has an epsilon input label; NO_I_EPSILONS: none has. */
  lemma IEpsilonsBits<W>(r: Props, states: seq<VectorFstState<W>>, start: Option<StateId>, zero: W, one: W,
                         dfsProps: Props, scc: seq<nat>)
    requires Computed(r, states, start, zero, one, dfsProps, scc)
    ensures I_EPSILONS in r <==>
              exists s, k :: 0 <= s < |states| && 0 <= k < |states[s].trs| && states[s].trs[k].ilabel == EPS_LABEL
    ensures NO_I_EPSILONS in r <==> !(I_EPSILONS in r)
  {
    ComputedBit(r, states, start, zero, one, dfsProps, scc, IEpsilons);
    forall s, k | 0 <= s < |states| && 0 <= k < |states[s].trs|
      ensures TrCheck(states[s].trs, k, s, IEpsilons, zero, one, scc) <==> states[s].trs[k].ilabel == EPS_LABEL
    {
    }
  }

  /** O_EPSILONS: some transition has an epsilon output label; NO_O_EPSILONS: none has. */
  lemma OEpsilonsBits<W>(r: Props, states: seq<VectorFstState<W>>, start: Option<StateId>, zero: W, one: W,
                         dfsProps: Props, scc: seq<nat>)
    requires Computed(r, states, start, zero, one, dfsProps, scc)
    ensures O_EPSILONS in r <==>
              exists s, k :: 0 <= s < |states| && 0 <= k < |states[s].trs| && states[s].trs[k].olabel == EPS_LABEL
    ensures NO_O_EPSILONS in r <==> !(O_EPSILONS in r)
  {
    ComputedBit(r, states, start, zero, one, dfsProps, scc, OEpsilons);
    forall s, k | 0 <= s < |states| && 0 <= k < |states[s].trs|
      ensures TrCheck(states[s].trs, k, s, OEpsilons, zero, one, scc) <==> states[s].trs[k].olabel == EPS_LABEL
    {
    }
  }

  /**
   * I_LABEL_SORTED: the transitions of every state are in non-decreasing
   * input-label order; NOT_I_LABEL_SORTED: some neighbours are not.
   */
  lemma ILabelSortedBits<W>(r: Props, states: seq<VectorFstState<W>>, start: Option<StateId>, zero: W, one: W,
                            dfsProps: Props, scc: seq<nat>)
    requires Computed(r, states, start, zero, one, dfsProps, scc)
    ensures I_LABEL_SORTED in r <==>
              forall s, k :: 0 <= s < |states| && 0 < k < |states[s].trs| ==>
                states[s].trs[k - 1].ilabel <= states[s].trs[k].ilabel
    ensures NOT_I_LABEL_SORTED in r <==> !(I_LABEL_SORTED in r)
  {
    ComputedBit(r, states, start, zero, one, dfsProps, scc, ILabelSorted);
    forall s, k | 0 <= s < |states| && 0 <= k < |states[s].trs|
      ensures TrCheck(states[s].trs, k, s, ILabelSorted, zero, one, scc) <==>
                k > 0 && states[s].trs[k].ilabel < states[s].trs[k - 1].ilabel
    {
    }
  }

  /**
   * O_LABEL_SORTED: the transitions of every state are in non-decreasing
   * output-label order; NOT_O_LABEL_SORTED: some neighbours are not.
   */
  lemma OLabelSortedBits<W>(r: Props, states: seq<VectorFstState<W>>, start: Option<StateId>, zero: W, one: W,
                            dfsProps: Props, scc: seq<nat>)
    requires Computed(r, states, start, zero, one, dfsProps, scc)
    ensures O_LABEL_SORTED in r <==>
              forall s, k :: 0 <= s < |states| && 0 < k < |states[s].trs| ==>
                states[s].trs[k - 1].olabel <= states[s].trs[k].olabel
    ensures NOT_O_LABEL_SORTED in r <==> !(O_LABEL_SORTED in r)
  {
    ComputedBit(r, states, start, zero, one, dfsProps, scc, OLabelSorted);
    forall s, k | 0 <= s < |states| && 0 <= k < |states[s].trs|
      ensures TrCheck(states[s].trs, k, s, OLabelSorted, zero, one, scc) <==>
                k > 0 && states[s].trs[k].olabel < states[s].trs[k - 1].olabel
    {
    }
  }

  /**
   * WEIGHTED: some transition weight is neither zero nor one, or some final
   * weight is not one; UNWEIGHTED: neither.
   */
  lemma WeightedBits<W>(r: Props, states: seq<VectorFstState<W>>, start: Option<StateId>, zero: W, one: W,
                        dfsProps: Props, scc: seq<nat>)
    requires Computed(r, states, start, zero, one, dfsProps, scc)
    ensures WEIGHTED in r <==>
              || (exists s, k :: 0 <= s < |states| && 0 <= k < |states[s].trs| &&
                   NonTrivial(states[s].trs[k].weight, zero, one))
              || (exists s :: 0 <= s < |states| && states[s].final_weight.Some? && states[s].final_weight.value != one)
    ensures UNWEIGHTED in r <==> !(WEIGHTED in r)
  {
    ComputedBit(r, states, start, zero, one, dfsProps, scc, Weighted);
    forall s, k | 0 <= s < |states| && 0 <= k < |states[s].trs|
      ensures TrCheck(states[s].trs, k, s, Weighted, zero, one, scc) <==> NonTrivial(states[s].trs[k].weight, zero, one)
    {
    }
    forall s | 0 <= s < |states|
      ensures StateCheck(states, s, Weighted, one) <==>
                states[s].final_weight.Some? && states[s].final_weight.value != one
    {
    }
  }

  /**
   * WEIGHTED_CYCLES: some transition with a weight neither zero nor one stays
   * inside its strongly connected component; UNWEIGHTED_CYCLES: none does.
   */
  lemma WeightedCyclesBits<W>(r: Props, states: seq<VectorFstState<W>>, start: Option<StateId>, zero: W, one: W,
                              dfsProps: Props, scc: seq<nat>)
    requires Computed(r, states, start, zero, one, dfsProps, scc)
    ensures WEIGHTED_CYCLES in r <==>
              exists s, k :: 0 <= s < |states| && 0 <= k < |states[s].trs| &&
                NonTrivial(states[s].trs[k].weight, zero, one) && scc[s] == scc[states[s].trs[k].nextstate]
    ensures UNWEIGHTED_CYCLES in r <==> !(WEIGHTED_CYCLES in r)
  {
    ComputedBit(r, states, start, zero, one, dfsProps, scc, WeightedCycles);
    forall s, k | 0 <= s < |states| && 0 <= k < |states[s].trs|
      ensures TrCheck(states[s].trs, k, s, WeightedCycles, zero, one, scc) <==>
                NonTrivial(states[s].trs[k].weight, zero, one) && scc[s] == scc[states[s].trs[k].nextstate]
    {
    }
  }

  /** TOP_SORTED: every transition goes to a state with a larger id; NOT_TOP_SORTED: some does not. */
  lemma TopSortedBits<W>(r: Props, states: seq<VectorFstState<W>>, start: Option<StateId>, zero: W, one: W,
                         dfsProps: Props, scc: seq<nat>)
    requires Computed(r, states, start, zero, one, dfsProps, scc)
    ensures TOP_SORTED in r <==>
              forall s, k :: 0 <= s < |states| && 0 <= k < |states[s].trs| ==> s < states[s].trs[k].nextstate
    ensures NOT_TOP_SORTED in r <==> !(TOP_SORTED in r)
  {
    ComputedBit(r, states, start, zero, one, dfsProps, scc, TopSorted);
    forall s, k | 0 <= s < |states| && 0 <= k < |states[s].trs|
      ensures TrCheck(states[s].trs, k, s, TopSorted, zero, one, scc) <==> states[s].trs[k].nextstate <= s
    {
    }
  }

  /**
   * STRING: every transition of state `s` goes to state `s + 1`, only the last
   * state may be final, every non-final state has exactly one transition and
   * the start state, if any, is state 0; NOT_STRING: one of these fails.
   */
  lemma StringBits<W>(r: Props, states: seq<VectorFstState<W>>, start: Option<StateId>, zero: W, one: W,
                      dfsProps: Props, scc: seq<nat>)
    requires Computed(r, states, start, zero, one, dfsProps, scc)
    ensures STRING in r <==>
              && (forall s, k :: 0 <= s < |states| && 0 <= k < |states[s].trs| ==> states[s].trs[k].nextstate == s + 1)
              && (forall f :: 0 <= f < |states| - 1 ==> states[f].final_weight.None?)
              && (forall s :: 0 <= s < |states| && states[s].final_weight.None? ==> |states[s].trs| == 1)
              && (start.None? || start.value == 0)
    ensures NOT_STRING in r <==> !(STRING in r)
  {
    ComputedBit(r, states, start, zero, one, dfsProps, scc, String);
    forall s, k | 0 <= s < |states| && 0 <= k < |states[s].trs|
      ensures TrCheck(states[s].trs, k, s, String, zero, one, scc) <==> states[s].trs[k].nextstate != s + 1
    {
    }
    if SomeStateCheck(states, |states|, String, one) {
      var s :| 0 <= s < |states| && StateCheck(states, s, String, one);
      if FinalBefore(states, s) {
        var f :| 0 <= f < s && states[f].final_weight.Some?;
      }
    }
    if exists f :: 0 <= f < |states| - 1 && states[f].final_weight.Some? {
      var f :| 0 <= f < |states| - 1 && states[f].final_weight.Some?;
      assert StateCheck(states, f + 1, String, one);
    }
    if exists s :: 0 <= s < |states| && states[s].final_weight.None? && |states[s].trs| != 1 {
      var s :| 0 <= s < |states| && states[s].final_weight.None? && |states[s].trs| != 1;
      assert StateCheck(states, s, String, one);
    }
  }

  /**
   * The cycle and reachability bits are the SCC visitor's, and every other
   * property has exactly one of its two bits set: a result of consistent
   * visitor bits is itself consistent.
   */
  lemma ComputedConsistent<W>(r: Props, states: seq<VectorFstState<W>>, start: Option<StateId>, zero: W, one: W,
                              dfsProps: Props, scc: seq<nat>)
    requires Computed(r, states, start, zero, one, dfsProps, scc)
    ensures forall b: Bit :: FromDfs(b.prop) ==> (b in r <==> b in dfsProps)
    ensures forall q: Property :: !FromDfs(q) ==> (Pos(q) in r <==> Neg(q) !in r)
    ensures Exclusive(dfsProps) ==> Exclusive(r)
  {
    forall q: Property | !FromDfs(q) ensures Pos(q) in r <==> Neg(q) !in r {
      assert Pos(q) == Found(q) || Pos(q) == Initial(q);
      assert Neg(q) == Found(q) || Neg(q) == Initial(q);
    }
  }
}
