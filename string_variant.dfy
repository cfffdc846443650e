/**
 * `StringWeightVariant`: the value of a string weight, either `Infinity`
 * (the Zero of the string semirings) or a list of labels, and the iterator
 * that walks it one label at a time.
 */
module StringVariants {
  import opened Wrappers
  import opened FstTypes

  datatype StringWeightVariant = Infinity | Labels(labels: seq<Label>)

  /** The list in reverse order. */
  function ReverseSeq(l: seq<Label>): (r: seq<Label>)
    ensures |r| == |l|
    ensures forall i :: 0 <= i < |l| ==> r[i] == l[|l| - 1 - i]
  {
    if l == [] then [] else ReverseSeq(l[1..]) + [l[0]]
  }

  lemma {:induction false} ReverseSeqInvolution(l: seq<Label>)
    ensures ReverseSeq(ReverseSeq(l)) == l
  {
    var r := ReverseSeq(ReverseSeq(l));
    assert forall i :: 0 <= i < |l| ==> r[i] == l[i];
  }

  lemma ReverseSeqConcat(a: seq<Label>, b: seq<Label>)
    ensures ReverseSeq(a + b) == ReverseSeq(b) + ReverseSeq(a)
  {
    var r := ReverseSeq(a + b);
    var t := ReverseSeq(b) + ReverseSeq(a);
    assert |r| == |t|;
    forall i | 0 <= i < |r| ensures r[i] == t[i] {
      if i < |b| {
        assert r[i] == (a + b)[|a| + |b| - 1 - i];
      } else {
        assert t[i] == ReverseSeq(a)[i - |b|];
      }
    }
  }

  /** `unwrap_label`: the single label of a one-label list; anything else panics. */
  function UnwrapLabel(v: StringWeightVariant): (l: Label)
    requires v.Labels? && |v.labels| == 1
    ensures v == Labels([l])
  {
    v.labels[0]
  }

  /** `unwrap_labels`: the label list; `Infinity` panics. */
  function UnwrapLabels(v: StringWeightVariant): (l: seq<Label>)
    requires v.Labels?
    ensures v == Labels(l)
  {
    v.labels
  }

  /** `is_empty_list`: true only for the empty label list, never for `Infinity`. */
  function IsEmptyList(v: StringWeightVariant): (b: bool)
    ensures b <==> v == Labels([])
  {
    match v
    case Infinity => false
    case Labels(l) => |l| == 0
  }

  /** `reverse`: the labels in reverse order; `Infinity` stays `Infinity`. */
  function Reverse(v: StringWeightVariant): (r: StringWeightVariant)
    ensures r.Infinity? <==> v.Infinity?
    ensures v.Labels? ==> r == Labels(ReverseSeq(v.labels))
  {
    match v
    case Infinity => Infinity
    case Labels(l) => Labels(ReverseSeq(l))
  }

  /** Reversing twice gives the weight back. */
  lemma ReverseInvolution(v: StringWeightVariant)
    ensures Reverse(Reverse(v)) == v
  {
    if v.Labels? { ReverseSeqInvolution(v.labels); }
  }

  /** What `iter` yields: `Infinity` once, or each label as a one-label list, in order. */
  function Items(v: StringWeightVariant): seq<StringWeightVariant>
  {
    match v
    case Infinity => [Infinity]
    case Labels(l) => Singletons(l)
  }

  function Singletons(l: seq<Label>): (r: seq<StringWeightVariant>)
    ensures |r| == |l| && forall i :: 0 <= i < |l| ==> r[i] == Labels([l[i]])
  {
    seq(|l|, i requires 0 <= i < |l| => Labels([l[i]]))
  }

  /** Concatenation of the label lists of `items`, `Infinity` if any of them is. */
  function Concat(items: seq<StringWeightVariant>): StringWeightVariant
  {
    if items == [] then Labels([])
    else
      var rest := Concat(items[1..]);
      if items[0].Infinity? || rest.Infinity? then Infinity else Labels(items[0].labels + rest.labels)
  }

  /** Joining back what `iter` yields gives the weight it walked. */
  lemma {:induction false} ItemsConcat(v: StringWeightVariant)
    ensures Concat(Items(v)) == v
  {
    if v.Labels? {
      SingletonsConcat(v.labels);
    }
  }

  lemma {:induction false} SingletonsConcat(l: seq<Label>)
    ensures Concat(Singletons(l)) == Labels(l)
    decreases |l|
  {
    if l != [] {
      SingletonsConcat(l[1..]);
      assert Singletons(l)[1..] == Singletons(l[1..]);
      assert l == [l[0]] + l[1..];
    }
  }

  /** `StringWeightVariantIterator`: the walk over `v`, at position `idx`, until `done`. */
  class StringWeightVariantIterator {
    const v: StringWeightVariant
    var idx: nat
    var done: bool

    ghost predicate Valid()
      reads this
    {
      match v
      case Infinity => idx == 0
      case Labels(l) => idx <= |l|
    }

    /** What the iterator has still to yield. */
    ghost function Remaining(): seq<StringWeightVariant>
      reads this
      requires Valid()
    {
      if done then []
      else match v
        case Infinity => [Infinity]
        case Labels(l) => Singletons(l[idx..])
    }

    /** `iter`: a walk from the beginning. */
    constructor (v: StringWeightVariant)
      ensures this.v == v && Valid() && Remaining() == Items(v)
    {
      this.v := v;
      idx := 0;
      done := false;
    }

    /**
     * `next`: the next item, or `None` once everything has been yielded (and
     * from then on, `None` forever).
     */
    method Next() returns (r: Option<StringWeightVariant>)
      requires Valid()
      modifies this
      ensures Valid()
      ensures old(Remaining()) == [] ==> r == None && Remaining() == []
      ensures old(Remaining()) != [] ==> r == Some(old(Remaining())[0]) && Remaining() == old(Remaining())[1..]
    {
      if done {
        return None;
      }
      match v {
        case Infinity =>
          done := true;
          return Some(Infinity);
        case Labels(l) =>
          if idx < |l| {
            r := Some(Labels([l[idx]]));
            assert l[idx + 1..] == l[idx..][1..];
            idx := idx + 1;
          } else {
            done := true;
            r := None;
          }
      }
    }
  }

  /** The two iterator tests: `Infinity` yields itself once; `[1, 2]` yields `[1]` then `[2]`. */
  lemma IteratorExamples()
    ensures Items(Infinity) == [Infinity]
    ensures Items(Labels([1, 2])) == [Labels([1]), Labels([2])]
  {
  }
}
