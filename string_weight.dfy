/**
 * The three string semirings over label lists: Times is concatenation with
 * `Infinity` absorbing, Zero is `Infinity`, One is the empty list, and Plus
 * is the longest common prefix (left), the longest common suffix (right) or
 * defined only on equal arguments (restrict).
 */
module StringWeights {
  import opened Wrappers
  import opened FstTypes
  import opened StringVariants

  datatype StringType = StringRestrict | StringLeft | StringRight

  datatype DivideType = DivideLeft | DivideRight | DivideAny

  datatype SemiringProperty = LeftSemiring | RightSemiring | Commutative | Idempotent | Path

  /** Zero annihilates Times on both sides. */
  function Zero(): (r: StringWeightVariant)
    ensures forall w :: Times(r, w) == r && Times(w, r) == r
  {
    Infinity
  }

  /** One, the empty label list, is the identity of Times on both sides. */
  function One(): (r: StringWeightVariant)
    ensures forall w :: Times(r, w) == w && Times(w, r) == w
  {
    assert forall l: seq<Label> :: [] + l == l && l + [] == l;
    Labels([])
  }

  // ---------------------------------------------------------------------------
  // Plus.

  predicate IsPrefix(p: seq<Label>, l: seq<Label>)
  {
    |p| <= |l| && l[..|p|] == p
  }

  predicate IsSuffix(p: seq<Label>, l: seq<Label>)
  {
    |p| <= |l| && l[|l| - |p|..] == p
  }

  /** The labels on which `a` and `b` agree from the front, as `zip` then `take_while` collects them. */
  function Lcp(a: seq<Label>, b: seq<Label>): seq<Label>
  {
    if a == [] || b == [] || a[0] != b[0] then [] else [a[0]] + Lcp(a[1..], b[1..])
  }

  /** The same from the back: the lists reversed, the common prefix taken, and reversed again. */
  function Lcs(a: seq<Label>, b: seq<Label>): seq<Label>
  {
    ReverseSeq(Lcp(ReverseSeq(a), ReverseSeq(b)))
  }

  /**
   * `Lcp` is the longest common prefix: a prefix of both lists, and every
   * common prefix is a prefix of it.
   */
  lemma {:induction false} LcpIsLongestCommonPrefix(a: seq<Label>, b: seq<Label>, p: seq<Label>)
    ensures IsPrefix(Lcp(a, b), a) && IsPrefix(Lcp(a, b), b)
    ensures IsPrefix(p, a) && IsPrefix(p, b) ==> IsPrefix(p, Lcp(a, b))
    decreases |a|
  {
    if a != [] && b != [] && a[0] == b[0] {
      var q := if p == [] then [] else p[1..];
      LcpIsLongestCommonPrefix(a[1..], b[1..], q);
      if IsPrefix(p, a) && IsPrefix(p, b) && p != [] {
        assert IsPrefix(q, a[1..]) && IsPrefix(q, b[1..]);
        assert p == [a[0]] + q;
      }
    }
  }

  lemma ReversePrefixSuffix(p: seq<Label>, l: seq<Label>)
    ensures IsSuffix(p, l) <==> IsPrefix(ReverseSeq(p), ReverseSeq(l))
  {
    var rp := ReverseSeq(p);
    var rl := ReverseSeq(l);
    if IsSuffix(p, l) {
      assert forall i :: 0 <= i < |rp| ==> rp[i] == rl[i];
      assert rl[..|rp|] == rp;
    }
    if IsPrefix(rp, rl) {
      assert forall i :: 0 <= i < |p| ==> p[i] == l[|l| - |p| + i] by {
        forall i | 0 <= i < |p| ensures p[i] == l[|l| - |p| + i] {
          assert rp[|p| - 1 - i] == rl[|p| - 1 - i];
        }
      }
      assert l[|l| - |p|..] == p;
    }
  }

  /**
   * `Lcs` is the longest common suffix: a suffix of both lists, and every
   * common suffix is a suffix of it.
   */
  lemma LcsIsLongestCommonSuffix(a: seq<Label>, b: seq<Label>, p: seq<Label>)
    ensures IsSuffix(Lcs(a, b), a) && IsSuffix(Lcs(a, b), b)
    ensures IsSuffix(p, a) && IsSuffix(p, b) ==> IsSuffix(p, Lcs(a, b))
  {
    var c := Lcp(ReverseSeq(a), ReverseSeq(b));
    LcpIsLongestCommonPrefix(ReverseSeq(a), ReverseSeq(b), ReverseSeq(p));
    ReverseSeqInvolution(c);
    ReversePrefixSuffix(Lcs(a, b), a);
    ReversePrefixSuffix(Lcs(a, b), b);
    ReversePrefixSuffix(p, a);
    ReversePrefixSuffix(p, b);
    ReversePrefixSuffix(p, Lcs(a, b));
  }

  /**
   * `plus_assign`: Zero on either side gives the other argument; otherwise
   * the restricted semiring fails on unequal arguments and the left and
   * right ones keep the common prefix or suffix.
   */
  function Plus(t: StringType, w1: StringWeightVariant, w2: StringWeightVariant): (r: Result<StringWeightVariant>)
    ensures w1 == Zero() ==> r == Ok(w2)
    ensures w2 == Zero() ==> r == Ok(w1)
    ensures r.Err? <==> t == StringRestrict && w1 != w2 && w1 != Zero() && w2 != Zero()
  {
    if w1.Infinity? then Ok(w2)
    else if w2.Infinity? then Ok(w1)
    else
      match t
      case StringRestrict => if w1 != w2 then Err("Unequal arguments : non-functional FST ?") else Ok(w1)
      case StringLeft => Ok(Labels(Lcp(w1.labels, w2.labels)))
      case StringRight => Ok(Labels(Lcs(w1.labels, w2.labels)))
  }

  lemma {:induction false} LcpSelf(a: seq<Label>)
    ensures Lcp(a, a) == a
    decreases |a|
  {
    if a != [] {
      LcpSelf(a[1..]);
    }
  }

  lemma {:induction false} LcpCommutes(a: seq<Label>, b: seq<Label>)
    ensures Lcp(a, b) == Lcp(b, a)
    decreases |a|
  {
    if a != [] && b != [] && a[0] == b[0] {
      LcpCommutes(a[1..], b[1..]);
    }
  }

  lemma {:induction false} LcpAssociates(a: seq<Label>, b: seq<Label>, c: seq<Label>)
    ensures Lcp(Lcp(a, b), c) == Lcp(a, Lcp(b, c))
    decreases |a|
  {
    if a != [] && b != [] && c != [] && a[0] == b[0] && b[0] == c[0] {
      LcpAssociates(a[1..], b[1..], c[1..]);
      assert Lcp(a, b)[1..] == Lcp(a[1..], b[1..]);
      assert Lcp(b, c)[1..] == Lcp(b[1..], c[1..]);
    }
  }

  /**
   * Plus is idempotent and commutative in all three semirings, and
   * associative in the left and right ones.
   */
  lemma PlusIdempotentCommutative(t: StringType, w1: StringWeightVariant, w2: StringWeightVariant)
    ensures Plus(t, w1, w1) == Ok(w1)
    ensures Plus(t, w1, w2) == Plus(t, w2, w1)
  {
    if w1.Labels? {
      LcpSelf(w1.labels);
      LcpSelf(ReverseSeq(w1.labels));
      ReverseSeqInvolution(w1.labels);
    }
    if w1.Labels? && w2.Labels? {
      LcpCommutes(w1.labels, w2.labels);
      LcpCommutes(ReverseSeq(w1.labels), ReverseSeq(w2.labels));
    }
  }

  lemma PlusAssociative(t: StringType, a: StringWeightVariant, b: StringWeightVariant, c: StringWeightVariant)
    requires t != StringRestrict
    ensures Plus(t, a, b).Ok? && Plus(t, b, c).Ok?
    ensures Plus(t, Plus(t, a, b).value, c) == Plus(t, a, Plus(t, b, c).value)
  {
    if a.Labels? && b.Labels? && c.Labels? {
      if t == StringLeft {
        LcpAssociates(a.labels, b.labels, c.labels);
      } else {
        var ra, rb, rc := ReverseSeq(a.labels), ReverseSeq(b.labels), ReverseSeq(c.labels);
        ReverseSeqInvolution(Lcp(ra, rb));
        ReverseSeqInvolution(Lcp(rb, rc));
        LcpAssociates(ra, rb, rc);
      }
    }
  }

  // ---------------------------------------------------------------------------
  // Times.

  /** Concatenation of label lists; `Infinity` on either side gives `Infinity`. */
  function Times(w1: StringWeightVariant, w2: StringWeightVariant): (r: StringWeightVariant)
    ensures r.Infinity? <==> w1.Infinity? || w2.Infinity?
    ensures r.Labels? ==> |r.labels| == |w1.labels| + |w2.labels|
  {
    if w1.Infinity? || w2.Infinity? then Infinity else Labels(w1.labels + w2.labels)
  }

  /**
   * `times_assign`: the labels of `w2` pushed one by one onto those of `w1`,
   * unless `w1` is `Infinity`, which stays so, or `w2` is, which makes the
   * result `Infinity`.
   */
  method TimesAssign(w1: StringWeightVariant, w2: StringWeightVariant) returns (r: StringWeightVariant)
    ensures r == Times(w1, w2)
  {
    r := w1;
    if w1.Labels? {
      if w2.Labels? {
        var left := w1.labels;
        for k := 0 to |w2.labels|
          invariant left == w1.labels + w2.labels[..k]
        {
          left := left + [w2.labels[k]];
          assert w2.labels[..k + 1] == w2.labels[..k] + [w2.labels[k]];
        }
        assert w2.labels[..|w2.labels|] == w2.labels;
        r := Labels(left);
      } else {
        r := Infinity;
      }
    }
  }

  /** Times makes a monoid with One as identity, and Zero annihilates. */
  lemma TimesMonoid(a: StringWeightVariant, b: StringWeightVariant, c: StringWeightVariant)
    ensures Times(Times(a, b), c) == Times(a, Times(b, c))
    ensures Times(One(), a) == a && Times(a, One()) == a
    ensures Times(Zero(), a) == Zero() && Times(a, Zero()) == Zero()
  {
    if a.Labels? && b.Labels? && c.Labels? {
      assert (a.labels + b.labels) + c.labels == a.labels + (b.labels + c.labels);
    }
    if a.Labels? {
      assert [] + a.labels == a.labels && a.labels + [] == a.labels;
    }
  }

  lemma {:induction false} LcpPrepend(w: seq<Label>, a: seq<Label>, b: seq<Label>)
    ensures Lcp(w + a, w + b) == w + Lcp(a, b)
    decreases |w|
  {
    if w != [] {
      LcpPrepend(w[1..], a, b);
      assert (w + a)[1..] == w[1..] + a;
      assert (w + b)[1..] == w[1..] + b;
      assert w == [w[0]] + w[1..];
    } else {
      assert w + a == a && w + b == b;
    }
  }

  lemma LcsAppend(a: seq<Label>, b: seq<Label>, w: seq<Label>)
    ensures Lcs(a + w, b + w) == Lcs(a, b) + w
  {
    var ra, rb, rw := ReverseSeq(a), ReverseSeq(b), ReverseSeq(w);
    ReverseSeqConcat(a, w);
    ReverseSeqConcat(b, w);
    LcpPrepend(rw, ra, rb);
    ReverseSeqConcat(rw, Lcp(ra, rb));
    ReverseSeqInvolution(w);
  }

  /** `properties()`: which semiring laws each string semiring has. */
  function Properties(t: StringType): set<SemiringProperty>
  {
    match t
    case StringRestrict => {LeftSemiring, RightSemiring, Idempotent}
    case StringLeft => {LeftSemiring, Idempotent}
    case StringRight => {RightSemiring, Idempotent}
  }

  /**
   * The laws `properties()` claims hold: Times distributes over Plus from
   * the left in a left semiring and from the right in a right semiring
   * (whenever the sum is defined), and Plus is idempotent.
   */
  lemma PropertiesHold(t: StringType, w: StringWeightVariant, a: StringWeightVariant, b: StringWeightVariant)
    ensures LeftSemiring in Properties(t) && Plus(t, a, b).Ok? ==>
              Plus(t, Times(w, a), Times(w, b)) == Ok(Times(w, Plus(t, a, b).value))
    ensures RightSemiring in Properties(t) && Plus(t, a, b).Ok? ==>
              Plus(t, Times(a, w), Times(b, w)) == Ok(Times(Plus(t, a, b).value, w))
    ensures Idempotent in Properties(t) ==> Plus(t, a, a) == Ok(a)
  {
    PlusIdempotentCommutative(t, a, b);
    if w.Labels? && a.Labels? && b.Labels? {
      if t == StringLeft {
        LcpPrepend(w.labels, a.labels, b.labels);
      } else if t == StringRight {
        LcsAppend(a.labels, b.labels, w.labels);
      } else if Plus(t, a, b).Ok? {
        assert a == b;
      }
    }
  }

  /** `reverse`: the left semiring's Plus, on reversed weights, is the right semiring's. */
  lemma ReverseSwapsPlus(a: StringWeightVariant, b: StringWeightVariant)
    ensures Plus(StringLeft, a, b).Ok? && Plus(StringRight, Reverse(a), Reverse(b)).Ok?
    ensures Reverse(Plus(StringLeft, a, b).value) == Plus(StringRight, Reverse(a), Reverse(b)).value
  {
    if a.Labels? && b.Labels? {
      ReverseSeqInvolution(a.labels);
      ReverseSeqInvolution(b.labels);
    }
  }

  // ---------------------------------------------------------------------------
  // Division.

  function Min(a: nat, b: nat): nat
  {
    if a < b then a else b
  }

  /**
   * `divide_left`: drops as many leading labels of `w1` as `w2` has;
   * `Infinity` divided by a list is `Infinity`; dividing by `Infinity` panics.
   */
  function DivideLeftW(w1: StringWeightVariant, w2: StringWeightVariant): (r: StringWeightVariant)
    requires w2.Labels?
    ensures w1.Infinity? ==> r == Infinity
    ensures w1.Labels? ==> r.Labels? && IsSuffix(r.labels, w1.labels) &&
                           |r.labels| == |w1.labels| - Min(|w2.labels|, |w1.labels|)
  {
    if w1.Infinity? then Infinity else Labels(w1.labels[Min(|w2.labels|, |w1.labels|)..])
  }

  /** `divide_right`: drops as many trailing labels of `w1` as `w2` has. */
  function DivideRightW(w1: StringWeightVariant, w2: StringWeightVariant): (r: StringWeightVariant)
    requires w2.Labels?
    ensures w1.Infinity? ==> r == Infinity
    ensures w1.Labels? ==> r.Labels? && IsPrefix(r.labels, w1.labels) &&
                           |r.labels| == |w1.labels| - Min(|w2.labels|, |w1.labels|)
  {
    if w1.Infinity? then Infinity else Labels(w1.labels[..|w1.labels| - Min(|w2.labels|, |w1.labels|)])
  }

  /** Left division undoes a Times on the left, right division one on the right. */
  lemma DivideUndoesTimes(w: StringWeightVariant, u: StringWeightVariant)
    requires u.Labels?
    ensures DivideLeftW(Times(u, w), u) == w
    ensures DivideRightW(Times(w, u), u) == w
  {
    if w.Labels? {
      assert (u.labels + w.labels)[|u.labels|..] == w.labels;
      assert (w.labels + u.labels)[..|w.labels|] == w.labels;
    }
  }

  /**
   * Weak divisibility: the sum of the left semiring divides each summand from
   * the left, and that of the right semiring from the right.
   */
  lemma SumDividesSummand(w1: StringWeightVariant, w2: StringWeightVariant)
    requires w1.Labels? || w2.Labels?
    ensures var p := Plus(StringLeft, w1, w2).value; p.Labels? && Times(p, DivideLeftW(w1, p)) == w1
    ensures var p := Plus(StringRight, w1, w2).value; p.Labels? && Times(DivideRightW(w1, p), p) == w1
  {
    if w1.Labels? && w2.Labels? {
      PrefixDivides(w1.labels, Lcp(w1.labels, w2.labels), w2.labels);
      SuffixDivides(w1.labels, Lcs(w1.labels, w2.labels), w2.labels);
    } else if w1.Labels? {
      assert w1.labels + [] == w1.labels;
      assert [] + w1.labels == w1.labels;
    }
  }

  lemma PrefixDivides(l: seq<Label>, p: seq<Label>, other: seq<Label>)
    requires p == Lcp(l, other)
    ensures |p| <= |l| && p + l[|p|..] == l
  {
    LcpIsLongestCommonPrefix(l, other, []);
    assert l == l[..|p|] + l[|p|..];
  }

  lemma SuffixDivides(l: seq<Label>, q: seq<Label>, other: seq<Label>)
    requires q == Lcs(l, other)
    ensures |q| <= |l| && l[..|l| - |q|] + q == l
  {
    LcsIsLongestCommonSuffix(l, other, []);
    assert l == l[..|l| - |q|] + l[|l| - |q|..];
  }

  /** The division a semiring of type `t` performs for `dt`; the others are errors. */
  predicate Divides(t: StringType, dt: DivideType)
  {
    match t
    case StringLeft => dt == DivideLeft
    case StringRight => dt == DivideRight
    case StringRestrict => dt != DivideAny
  }

  /**
   * `divide_assign`: the left semiring only divides on the left, the right
   * one only on the right, and the restricted one refuses `DivideAny`.
   * Dividing by `Infinity` panics.
   */
  function Divide(t: StringType, w1: StringWeightVariant, w2: StringWeightVariant, dt: DivideType)
    : (r: Result<StringWeightVariant>)
    requires Divides(t, dt) ==> w2.Labels?
    ensures r.Ok? <==> Divides(t, dt)
    ensures r.Ok? && dt == DivideLeft ==> r.value == DivideLeftW(w1, w2)
    ensures r.Ok? && dt == DivideRight ==> r.value == DivideRightW(w1, w2)
  {
    match t
    case StringLeft =>
      if dt != DivideLeft then Err("Only left division is defined.") else Ok(DivideLeftW(w1, w2))
    case StringRight =>
      if dt != DivideRight then Err("Only right division is defined.") else Ok(DivideRightW(w1, w2))
    case StringRestrict =>
      match dt
      case DivideLeft => Ok(DivideLeftW(w1, w2))
      case DivideRight => Ok(DivideRightW(w1, w2))
      case DivideAny => Err("Only explicit left or right division is defined.")
  }

  // ---------------------------------------------------------------------------
  // Binary form, as a stream of 32-bit integers.

  const TWO32: int := 0x1_0000_0000
  const TWO64: int := 0x1_0000_0000_0000_0000

  predicate IsI32(x: int)
  {
    -0x8000_0000 <= x < 0x8000_0000
  }

  /** `x as i32`: the low 32 bits, read as two's complement. */
  function AsI32(x: nat): (r: int)
    ensures IsI32(r) && (x - r) % TWO32 == 0
    ensures x < 0x8000_0000 ==> r == x
  {
    var low := x % TWO32;
    if low < 0x8000_0000 then low else low - TWO32
  }

  /** `e as Label` for an `i32` `e`: sign extension to 64 bits. */
  function I32AsLabel(e: int): Label
    requires IsI32(e)
  {
    if e >= 0 then e else e + TWO64
  }

  /** The integers `write_binary` writes: the length, then the labels; `Infinity` as the list `[-1]`. */
  function Encoded(w: StringWeightVariant): seq<int>
  {
    match w
    case Infinity => [1, -1]
    case Labels(l) => [AsI32(|l|)] + seq(|l|, i requires 0 <= i < |l| => AsI32(l[i]))
  }

  /** `write_binary`: the length, then each label in turn. */
  method WriteBinary(w: StringWeightVariant) returns (out: seq<int>)
    ensures out == Encoded(w)
  {
    match w {
      case Infinity =>
        out := [1, -1];
      case Labels(l) =>
        out := [AsI32(|l|)];
        for k := 0 to |l|
          invariant out == [AsI32(|l|)] + seq(k, i requires 0 <= i < k => AsI32(l[i]))
        {
          out := out + [AsI32(l[k])];
        }
    }
  }

  /**
   * `parse_binary`: a count `n`, then `n` integers; the list `[-1]` is
   * `Infinity`. Too few integers, or a negative count (whose `usize` cast is
   * far more than any input holds), is a parse failure.
   */
  function ParseBinary(s: seq<int>): (r: Option<(StringWeightVariant, seq<int>)>)
    requires forall k :: 0 <= k < |s| ==> IsI32(s[k])
    ensures r.Some? ==> |r.value.1| < |s|
  {
    if |s| == 0 || s[0] < 0 || |s| - 1 < s[0] then None
    else
      var n := s[0];
      var labels := s[1..n + 1];
      if labels == [-1] then Some((Infinity, s[n + 1..]))
      else Some((Labels(seq(n, i requires 0 <= i < n => I32AsLabel(labels[i]))), s[n + 1..]))
  }

  /**
   * Writing then parsing gives the weight back, and leaves what follows, for
   * every weight whose labels and length fit in 31 bits.
   */
  lemma BinaryRoundTrip(w: StringWeightVariant, rest: seq<int>)
    requires w.Labels? ==> |w.labels| < 0x8000_0000 && forall k :: 0 <= k < |w.labels| ==> w.labels[k] < 0x8000_0000
    requires forall k :: 0 <= k < |rest| ==> IsI32(rest[k])
    ensures forall k :: 0 <= k < |Encoded(w) + rest| ==> IsI32((Encoded(w) + rest)[k])
    ensures ParseBinary(Encoded(w) + rest) == Some((w, rest))
  {
    var e := Encoded(w);
    var s := e + rest;
    assert forall k :: 0 <= k < |e| ==> s[k] == e[k];
    assert s[|e|..] == rest;
    if w.Labels? {
      var l := w.labels;
      var n := |l|;
      var labels := s[1..n + 1];
      assert labels == e[1..];
      assert forall i :: 0 <= i < n ==> labels[i] == l[i];
      assert labels != [-1] by {
        if n == 1 { assert labels[0] == l[0] >= 0; }
      }
      assert seq(n, i requires 0 <= i < n => I32AsLabel(labels[i])) == l;
    } else {
      assert s[1..2] == [-1];
    }
  }

  /** A label of `0xFFFF_FFFF` is written as `-1`, so the one-label list `[0xFFFF_FFFF]` reads back as `Infinity`. */
  lemma WideLabelReadsAsInfinity()
    ensures Encoded(Labels([0xFFFF_FFFF])) == [1, -1] == Encoded(Infinity)
    ensures ParseBinary(Encoded(Labels([0xFFFF_FFFF]))) == Some((Infinity, []))
  {
    assert Encoded(Labels([0xFFFF_FFFF])) == [1, -1];
    assert [1, -1][1..2] == [-1];
  }

  /** The semiring's serialisation name. */
  function WeightType(t: StringType): string
  {
    match t
    case StringRestrict => "restricted_string"
    case StringLeft => "left_string"
    case StringRight => "right_string"
  }
}
