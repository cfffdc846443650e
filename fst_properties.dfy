/**
 * `FstProperties`, the `u32` bit set of claims about an FST. For each of 16
 * properties there is a positive bit and, just above it, a negative bit:
 * the positive bit says the property holds, the negative bit says it does
 * not, neither says it is unknown. A set of bits is modelled as a `set` of
 * `Bit`s; `BitValue` gives each bit its place in the `u32`.
 */
module FstProperties {
  import opened FstTypes

  /** The 16 properties, in the order of their bit pairs. */
  datatype Property =
    | Acceptor | IDeterministic | ODeterministic | Epsilons | IEpsilons | OEpsilons
    | ILabelSorted | OLabelSorted | Weighted | Cyclic | InitialCyclic | TopSorted
    | Accessible | Coaccessible | String | WeightedCycles

  /** The positive (`Pos`) or negative (`Neg`) bit of a property. */
  datatype Bit = Pos(prop: Property) | Neg(prop: Property)

  type Props = set<Bit>

  const ACCEPTOR: Bit := Pos(Acceptor)
  const NOT_ACCEPTOR: Bit := Neg(Acceptor)
  const I_DETERMINISTIC: Bit := Pos(IDeterministic)
  const NOT_I_DETERMINISTIC: Bit := Neg(IDeterministic)
  const O_DETERMINISTIC: Bit := Pos(ODeterministic)
  const NOT_O_DETERMINISTIC: Bit := Neg(ODeterministic)
  const EPSILONS: Bit := Pos(Epsilons)
  const NO_EPSILONS: Bit := Neg(Epsilons)
  const I_EPSILONS: Bit := Pos(IEpsilons)
  const NO_I_EPSILONS: Bit := Neg(IEpsilons)
  const O_EPSILONS: Bit := Pos(OEpsilons)
  const NO_O_EPSILONS: Bit := Neg(OEpsilons)
  const I_LABEL_SORTED: Bit := Pos(ILabelSorted)
  const NOT_I_LABEL_SORTED: Bit := Neg(ILabelSorted)
  const O_LABEL_SORTED: Bit := Pos(OLabelSorted)
  const NOT_O_LABEL_SORTED: Bit := Neg(OLabelSorted)
  const WEIGHTED: Bit := Pos(Weighted)
  const UNWEIGHTED: Bit := Neg(Weighted)
  const CYCLIC: Bit := Pos(Cyclic)
  const ACYCLIC: Bit := Neg(Cyclic)
  const INITIAL_CYCLIC: Bit := Pos(InitialCyclic)
  const INITIAL_ACYCLIC: Bit := Neg(InitialCyclic)
  const TOP_SORTED: Bit := Pos(TopSorted)
  const NOT_TOP_SORTED: Bit := Neg(TopSorted)
  const ACCESSIBLE: Bit := Pos(Accessible)
  const NOT_ACCESSIBLE: Bit := Neg(Accessible)
  const COACCESSIBLE: Bit := Pos(Coaccessible)
  const NOT_COACCESSIBLE: Bit := Neg(Coaccessible)
  const STRING: Bit := Pos(String)
  const NOT_STRING: Bit := Neg(String)
  const WEIGHTED_CYCLES: Bit := Pos(WeightedCycles)
  const UNWEIGHTED_CYCLES: Bit := Neg(WeightedCycles)

  /** Properties that are preserved when an FST transition is set: none. */
  const SET_ARC_PROPERTIES: Props := {}

  /** What a transition setter keeps: the acceptor, epsilon and weighted pairs. */
  const RELEVANT_AFTER_SET: Props :=
    SET_ARC_PROPERTIES + {ACCEPTOR, NOT_ACCEPTOR, EPSILONS, NO_EPSILONS, I_EPSILONS,
                          NO_I_EPSILONS, O_EPSILONS, NO_O_EPSILONS, WEIGHTED, UNWEIGHTED}

  /** Position of a property's bit pair: its positive bit is bit `2 * PairIndex`. */
  function PairIndex(q: Property): (i: nat)
    ensures i < 16
  {
    match q
    case Acceptor => 0
    case IDeterministic => 1
    case ODeterministic => 2
    case Epsilons => 3
    case IEpsilons => 4
    case OEpsilons => 5
    case ILabelSorted => 6
    case OLabelSorted => 7
    case Weighted => 8
    case Cyclic => 9
    case InitialCyclic => 10
    case TopSorted => 11
    case Accessible => 12
    case Coaccessible => 13
    case String => 14
    case WeightedCycles => 15
  }

  /** The property whose bit pair is at `i`. */
  function PairProperty(i: nat): Property
    requires i < 16
  {
    if i == 0 then Acceptor
    else if i == 1 then IDeterministic
    else if i == 2 then ODeterministic
    else if i == 3 then Epsilons
    else if i == 4 then IEpsilons
    else if i == 5 then OEpsilons
    else if i == 6 then ILabelSorted
    else if i == 7 then OLabelSorted
    else if i == 8 then Weighted
    else if i == 9 then Cyclic
    else if i == 10 then InitialCyclic
    else if i == 11 then TopSorted
    else if i == 12 then Accessible
    else if i == 13 then Coaccessible
    else if i == 14 then String
    else WeightedCycles
  }

  /** `PairIndex` is one-to-one: each property has a pair of its own. */
  lemma PairIndexInverse(q: Property)
    ensures PairProperty(PairIndex(q)) == q
  {
    match q
    case Acceptor =>
    case IDeterministic =>
    case ODeterministic =>
    case Epsilons =>
    case IEpsilons =>
    case OEpsilons =>
    case ILabelSorted =>
    case OLabelSorted =>
    case Weighted =>
    case Cyclic =>
    case InitialCyclic =>
    case TopSorted =>
    case Accessible =>
    case Coaccessible =>
    case String =>
    case WeightedCycles =>
  }

  /** The bit's position in the `u32` representation. */
  function BitIndex(b: Bit): (i: nat)
    ensures i < 32
  {
    match b
    case Pos(q) => 2 * PairIndex(q)
    case Neg(q) => 2 * PairIndex(q) + 1
  }

  function Pow2(n: nat): (r: nat)
    ensures r >= 1
  {
    if n == 0 then 1 else 2 * Pow2(n - 1)
  }

  lemma {:induction false} Pow2Strict(m: nat, n: nat)
    requires m < n
    ensures Pow2(m) < Pow2(n)
    decreases n
  {
    if m + 1 < n {
      Pow2Strict(m, n - 1);
    }
  }

  /** The bit's value in the `u32` representation. */
  function BitValue(b: Bit): nat
  {
    Pow2(BitIndex(b))
  }

  lemma BitIndexInjective(b: Bit, b': Bit)
    ensures BitIndex(b) == BitIndex(b') ==> b == b'
  {
    if BitIndex(b) == BitIndex(b') {
      assert b.Pos? <==> b'.Pos?;
      assert PairIndex(b.prop) == PairIndex(b'.prop);
      PairIndexInverse(b.prop);
      PairIndexInverse(b'.prop);
    }
  }

  /**
   * The layout the source declares: the 32 bits occupy 32 distinct places of
   * the `u32`, and a negative bit sits just above its positive bit.
   */
  lemma BitLayout(b: Bit, b': Bit)
    ensures b != b' ==> BitValue(b) != BitValue(b')
    ensures BitValue(b) < Pow2(32)
    ensures BitValue(Neg(b.prop)) == 2 * BitValue(Pos(b.prop))
  {
    BitValueInjective(b, b');
    Pow2Strict(BitIndex(b), 32);
    NegAbovePos(b.prop);
  }

  lemma NegAbovePos(q: Property)
    ensures BitValue(Neg(q)) == 2 * BitValue(Pos(q))
  {
    var i := 2 * PairIndex(q);
    assert BitIndex(Neg(q)) == i + 1 && BitIndex(Pos(q)) == i;
    assert Pow2(i + 1) == 2 * Pow2(i);
  }

  lemma BitValueInjective(b: Bit, b': Bit)
    ensures b != b' ==> BitValue(b) != BitValue(b')
  {
    BitIndexInjective(b, b');
    if BitIndex(b) < BitIndex(b') {
      Pow2Strict(BitIndex(b), BitIndex(b'));
    } else if BitIndex(b') < BitIndex(b) {
      Pow2Strict(BitIndex(b'), BitIndex(b));
    }
  }

  /** No property is claimed both true and false. */
  ghost predicate Exclusive(p: Props)
  {
    forall q: Property :: !(Pos(q) in p && Neg(q) in p)
  }

  // ---------------------------------------------------------------------------
  // What the label and weight bits claim about a whole FST, given all its
  // transitions and its final weights.

  /** A weight other than Zero and One. */
  predicate NonTrivial<W(==)>(w: W, zero: W, one: W)
  {
    w != zero && w != one
  }

  ghost predicate LabelBitsHold<W>(p: Props, all: seq<Tr<W>>)
  {
    && (ACCEPTOR in p ==> forall k :: 0 <= k < |all| ==> all[k].ilabel == all[k].olabel)
    && (NOT_ACCEPTOR in p ==> exists k :: 0 <= k < |all| && all[k].ilabel != all[k].olabel)
    && (EPSILONS in p ==> exists k :: 0 <= k < |all| && all[k].ilabel == EPS_LABEL && all[k].olabel == EPS_LABEL)
    && (NO_EPSILONS in p ==> forall k :: 0 <= k < |all| ==> !(all[k].ilabel == EPS_LABEL && all[k].olabel == EPS_LABEL))
    && (I_EPSILONS in p ==> exists k :: 0 <= k < |all| && all[k].ilabel == EPS_LABEL)
    && (NO_I_EPSILONS in p ==> forall k :: 0 <= k < |all| ==> all[k].ilabel != EPS_LABEL)
    && (O_EPSILONS in p ==> exists k :: 0 <= k < |all| && all[k].olabel == EPS_LABEL)
    && (NO_O_EPSILONS in p ==> forall k :: 0 <= k < |all| ==> all[k].olabel != EPS_LABEL)
  }

  ghost predicate WeightBitsHold<W>(p: Props, zero: W, one: W, all: seq<Tr<W>>, finals: seq<W>)
  {
    && (WEIGHTED in p ==>
          (exists k :: 0 <= k < |all| && NonTrivial(all[k].weight, zero, one)) ||
          (exists k :: 0 <= k < |finals| && finals[k] != one))
    && (UNWEIGHTED in p ==>
          (forall k :: 0 <= k < |all| ==> !NonTrivial(all[k].weight, zero, one)) &&
          (forall k :: 0 <= k < |finals| ==> finals[k] == one))
  }
}
