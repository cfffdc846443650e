/**
 * `isomorphic`: a breadth-first pairing of the states of two FSTs, starting
 * from their start states, that checks each pair for equal finality and for
 * transitions that match one to one once both lists are sorted.
 */
module Isomorphic {
  import opened Wrappers
  import opened FstTypes
  import TrCompare

  /**
   * What the comparison needs of the weights: the order `<` the sort uses and
   * `approx_equal` with the configured delta.
   */
  datatype WeightOps<!W> = WeightOps(lt: (W, W) -> bool, approxEqual: (W, W) -> bool)

  /** Marks the pairs and triples of weights at which the order axioms below are wanted. */
  ghost predicate Pair<W>(a: W, b: W)
  {
    true
  }

  ghost predicate Triple<W>(a: W, b: W, c: W)
  {
    true
  }

  /**
   * `<` is a strict total order (true of floating-point weights that are not
   * NaN). Trichotomy and transitivity fire only where a proof names the
   * weights involved, through `Pair` and `Triple`.
   */
  ghost predicate StrictTotal<W(!new)>(lt: (W, W) -> bool)
  {
    && (forall a :: !lt(a, a))
    && (forall a, b {:trigger Pair(a, b)} :: a == b || lt(a, b) || lt(b, a))
    && (forall a, b, c {:trigger Triple(a, b, c)} :: lt(a, b) && lt(b, c) ==> lt(a, c))
  }

  /** Every weight is approximately equal to itself. */
  ghost predicate Reflexive<W(!new)>(approx: (W, W) -> bool)
  {
    forall w :: approx(w, w)
  }

  // ---------------------------------------------------------------------------
  // tr_compare and the sort

  /** `tr_compare`: lexicographic on input label, output label, weight and destination. */
  function Compare<W>(a: Tr<W>, b: Tr<W>, lt: (W, W) -> bool): TrCompare.Ordering
  {
    if a.ilabel < b.ilabel then TrCompare.Less
    else if a.ilabel > b.ilabel then TrCompare.Greater
    else if a.olabel < b.olabel then TrCompare.Less
    else if a.olabel > b.olabel then TrCompare.Greater
    else if lt(a.weight, b.weight) then TrCompare.Less
    else if lt(b.weight, a.weight) then TrCompare.Greater
    else if a.nextstate < b.nextstate then TrCompare.Less
    else if a.nextstate > b.nextstate then TrCompare.Greater
    else TrCompare.Equal
  }

  predicate LessEq<W>(a: Tr<W>, b: Tr<W>, lt: (W, W) -> bool)
  {
    Compare(a, b, lt) != TrCompare.Greater
  }

  /** With a strict total order on weights, `tr_compare` is a total order: ties are equal transitions. */
  lemma CompareTotal<W(!new)>(a: Tr<W>, b: Tr<W>, lt: (W, W) -> bool)
    requires StrictTotal(lt)
    ensures Compare(a, b, lt) == TrCompare.Equal <==> a == b
    ensures Compare(a, b, lt) == TrCompare.Less <==> Compare(b, a, lt) == TrCompare.Greater
    ensures LessEq(a, b, lt) || LessEq(b, a, lt)
  {
    assert Pair(a.weight, b.weight) && Triple(a.weight, b.weight, a.weight);
  }

  lemma LessEqTrans<W(!new)>(a: Tr<W>, b: Tr<W>, c: Tr<W>, lt: (W, W) -> bool)
    requires StrictTotal(lt) && LessEq(a, b, lt) && LessEq(b, c, lt)
    ensures LessEq(a, c, lt)
  {
    assert Pair(a.weight, b.weight) && Pair(b.weight, c.weight) && Pair(a.weight, c.weight);
    assert Triple(a.weight, b.weight, c.weight) && Triple(a.weight, b.weight, a.weight) && Triple(b.weight, c.weight, b.weight);
    assert Triple(c.weight, a.weight, b.weight) && Triple(b.weight, c.weight, a.weight);
  }

  predicate Sorted<W>(s: seq<Tr<W>>, lt: (W, W) -> bool)
  {
    forall i, j :: 0 <= i < j < |s| ==> LessEq(s[i], s[j], lt)
  }

  function Insert<W>(x: Tr<W>, s: seq<Tr<W>>, lt: (W, W) -> bool): (r: seq<Tr<W>>)
    ensures multiset(r) == multiset(s) + multiset{x} && |r| == |s| + 1
  {
    if s == [] then [x]
    else if Compare(s[0], x, lt) == TrCompare.Greater then [x] + s
    else
      assert s == [s[0]] + s[1..];
      [s[0]] + Insert(x, s[1..], lt)
  }

  /** `sort_by(tr_compare)`, as an insertion sort; the result is a permutation of `s`. */
  function SortBy<W>(s: seq<Tr<W>>, lt: (W, W) -> bool): (r: seq<Tr<W>>)
    ensures multiset(r) == multiset(s) && |r| == |s|
  {
    if s == [] then []
    else
      assert s == s[..|s| - 1] + [s[|s| - 1]];
      Insert(s[|s| - 1], SortBy(s[..|s| - 1], lt), lt)
  }

  lemma {:induction false} InsertSorted<W(!new)>(x: Tr<W>, s: seq<Tr<W>>, lt: (W, W) -> bool)
    requires StrictTotal(lt) && Sorted(s, lt)
    ensures Sorted(Insert(x, s, lt), lt)
    decreases |s|
  {
    if s == [] {
    } else if Compare(s[0], x, lt) == TrCompare.Greater {
      CompareTotal(s[0], x, lt);
      forall i, j | 0 <= i < j < |[x] + s| ensures LessEq(([x] + s)[i], ([x] + s)[j], lt) {
        if i == 0 {
          LessEqTrans(x, s[0], s[j - 1], lt);
        } else {
          assert ([x] + s)[i] == s[i - 1] && ([x] + s)[j] == s[j - 1];
        }
      }
    } else {
      var rest := Insert(x, s[1..], lt);
      assert Sorted(s[1..], lt) by {
        forall i, j | 0 <= i < j < |s[1..]| ensures LessEq(s[1..][i], s[1..][j], lt) {
          assert s[1..][i] == s[i + 1] && s[1..][j] == s[j + 1];
        }
      }
      InsertSorted(x, s[1..], lt);
      forall j | 0 <= j < |rest| ensures LessEq(s[0], rest[j], lt) {
        assert rest[j] in multiset(s[1..]) + multiset{x};
        if rest[j] == x {
          CompareTotal(s[0], x, lt);
        } else {
          assert rest[j] in s[1..];
          var k :| 0 <= k < |s[1..]| && s[1..][k] == rest[j];
          assert s[k + 1] == rest[j];
        }
      }
      forall i, j | 0 <= i < j < |[s[0]] + rest| ensures LessEq(([s[0]] + rest)[i], ([s[0]] + rest)[j], lt) {
        if i > 0 {
          assert ([s[0]] + rest)[i] == rest[i - 1] && ([s[0]] + rest)[j] == rest[j - 1];
        }
      }
    }
  }

  /** The sort's output is sorted. */
  lemma {:induction false} SortBySorted<W(!new)>(s: seq<Tr<W>>, lt: (W, W) -> bool)
    requires StrictTotal(lt)
    ensures Sorted(SortBy(s, lt), lt)
    decreases |s|
  {
    if s != [] {
      SortBySorted(s[..|s| - 1], lt);
      InsertSorted(s[|s| - 1], SortBy(s[..|s| - 1], lt), lt);
    }
  }

  lemma SortedTail<W>(s: seq<Tr<W>>, lt: (W, W) -> bool)
    requires Sorted(s, lt) && s != []
    ensures Sorted(s[1..], lt)
  {
    forall i, j | 0 <= i < j < |s[1..]| ensures LessEq(s[1..][i], s[1..][j], lt) {
      assert s[1..][i] == s[i + 1] && s[1..][j] == s[j + 1];
    }
  }

  /** The first elements of two sorted permutations of one list agree. */
  lemma SortedHeads<W(!new)>(a: seq<Tr<W>>, b: seq<Tr<W>>, lt: (W, W) -> bool)
    requires StrictTotal(lt) && Sorted(a, lt) && Sorted(b, lt) && multiset(a) == multiset(b) && a != []
    ensures b != [] && a[0] == b[0]
  {
    assert a[0] in multiset(b);
    var i :| 0 <= i < |b| && b[i] == a[0];
    assert b[0] in multiset(a);
    var j :| 0 <= j < |a| && a[j] == b[0];
    assert LessEq(b[0], a[0], lt) && LessEq(a[0], b[0], lt);
    CompareTotal(a[0], b[0], lt);
  }

  /** Two sorted permutations of one list are the same list: the sorted order is unique. */
  lemma {:induction false} SortedUnique<W(!new)>(a: seq<Tr<W>>, b: seq<Tr<W>>, lt: (W, W) -> bool)
    requires StrictTotal(lt) && Sorted(a, lt) && Sorted(b, lt) && multiset(a) == multiset(b)
    ensures a == b
    decreases |a|
  {
    if a == [] {
      assert |b| == |multiset(b)| == 0;
    } else {
      SortedHeads(a, b, lt);
      assert a == [a[0]] + a[1..] && b == [b[0]] + b[1..];
      assert multiset(a[1..]) == multiset(a) - multiset{a[0]};
      assert multiset(b[1..]) == multiset(b) - multiset{b[0]};
      SortedTail(a, lt);
      SortedTail(b, lt);
      SortedUnique(a[1..], b[1..], lt);
    }
  }

  // ---------------------------------------------------------------------------
  // Renumbering

  function RenameTr<W>(t: Tr<W>, pi: seq<StateId>): Tr<W>
    requires t.nextstate < |pi|
  {
    t.(nextstate := pi[t.nextstate])
  }

  predicate TargetsBelow<W>(s: seq<Tr<W>>, n: nat)
  {
    forall i :: 0 <= i < |s| ==> s[i].nextstate < n
  }

  /** `s` with every destination renumbered through `pi`. */
  function RenameTrs<W>(s: seq<Tr<W>>, pi: seq<StateId>): (r: seq<Tr<W>>)
    requires TargetsBelow(s, |pi|)
    ensures |r| == |s| && forall i :: 0 <= i < |s| ==> r[i] == s[i].(nextstate := pi[s[i].nextstate])
  {
    if s == [] then [] else [RenameTr(s[0], pi)] + RenameTrs(s[1..], pi)
  }

  /** Sorting keeps the destinations. */
  lemma SortTargets<W>(s: seq<Tr<W>>, n: nat, lt: (W, W) -> bool)
    requires TargetsBelow(s, n)
    ensures TargetsBelow(SortBy(s, lt), n)
  {
    var r := SortBy(s, lt);
    forall i | 0 <= i < |r| ensures r[i].nextstate < n {
      assert r[i] in multiset(s);
      var k :| 0 <= k < |s| && s[k] == r[i];
    }
  }

  lemma RenamePrefix<W>(s: seq<Tr<W>>, pi: seq<StateId>, n: nat)
    requires TargetsBelow(s, |pi|) && n < |s|
    ensures TargetsBelow(s[..n], |pi|)
    ensures RenameTrs(s, pi)[..n] == RenameTrs(s[..n], pi) && RenameTrs(s, pi)[n] == RenameTr(s[n], pi)
  {
    assert TargetsBelow(s[..n], |pi|);
    var a, b := RenameTrs(s, pi)[..n], RenameTrs(s[..n], pi);
    assert |a| == |b|;
    forall i | 0 <= i < n ensures a[i] == b[i] {
    }
  }

  /** Two transitions agreeing on labels and weight. */
  ghost predicate SameArc<W>(a: Tr<W>, b: Tr<W>)
  {
    a.ilabel == b.ilabel && a.olabel == b.olabel && a.weight == b.weight
  }

  /** No two transitions of `s` share labels and approximately equal weights. */
  predicate Unambiguous<W>(s: seq<Tr<W>>, approx: (W, W) -> bool)
  {
    forall i, j :: 0 <= i < |s| && 0 <= j < |s| && i != j ==>
      !(s[i].ilabel == s[j].ilabel && s[i].olabel == s[j].olabel && approx(s[i].weight, s[j].weight))
  }

  lemma {:induction false} InsertTargets<W>(x: Tr<W>, s: seq<Tr<W>>, n: nat, lt: (W, W) -> bool)
    requires x.nextstate < n && TargetsBelow(s, n)
    ensures TargetsBelow(Insert(x, s, lt), n)
    decreases |s|
  {
    if s != [] && Compare(s[0], x, lt) != TrCompare.Greater {
      InsertTargets(x, s[1..], n, lt);
    }
  }

  lemma {:induction false} InsertRename<W(!new)>(x: Tr<W>, s: seq<Tr<W>>, pi: seq<StateId>, lt: (W, W) -> bool)
    requires StrictTotal(lt) && x.nextstate < |pi| && TargetsBelow(s, |pi|)
    requires forall y :: y in s ==> !SameArc(x, y)
    ensures TargetsBelow(Insert(x, s, lt), |pi|)
    ensures RenameTrs(Insert(x, s, lt), pi) == Insert(RenameTr(x, pi), RenameTrs(s, pi), lt)
    decreases |s|
  {
    InsertTargets(x, s, |pi|, lt);
    if s != [] {
      assert Compare(s[0], x, lt) == Compare(RenameTr(s[0], pi), RenameTr(x, pi), lt) by {
        assert s[0] in s;
        assert Pair(s[0].weight, x.weight);
      }
      if Compare(s[0], x, lt) != TrCompare.Greater {
        assert forall y :: y in s[1..] ==> y in s;
        InsertRename(x, s[1..], pi, lt);
      }
    }
  }

  /** No two transitions of `s` agree on labels and weight. */
  ghost predicate DistinctArcs<W>(s: seq<Tr<W>>)
  {
    forall i, j :: 0 <= i < |s| && 0 <= j < |s| && i != j ==> !SameArc(s[i], s[j])
  }

  /** The last transition of `s` agrees on labels and weight with nothing in the sorted rest. */
  lemma LastDistinct<W>(s: seq<Tr<W>>, p: seq<Tr<W>>, x: Tr<W>, lt: (W, W) -> bool)
    requires DistinctArcs(s) && s == p + [x]
    ensures DistinctArcs(p)
    ensures forall y :: y in SortBy(p, lt) ==> !SameArc(x, y)
  {
    forall y | y in SortBy(p, lt) ensures !SameArc(x, y) {
      assert y in multiset(SortBy(p, lt));
      assert y in multiset(p);
      var k :| 0 <= k < |p| && p[k] == y;
      assert s[k] == y && s[|p|] == x;
    }
    forall i, j | 0 <= i < |p| && 0 <= j < |p| && i != j ensures !SameArc(p[i], p[j]) {
      assert s[i] == p[i] && s[j] == p[j];
    }
  }

  /**
   * Renumbering destinations does not change the sorted order of transitions
   * that no two share labels and weight: sorting commutes with renumbering.
   */
  lemma {:induction false} SortRename<W(!new)>(s: seq<Tr<W>>, pi: seq<StateId>, lt: (W, W) -> bool)
    requires StrictTotal(lt) && TargetsBelow(s, |pi|) && DistinctArcs(s)
    ensures TargetsBelow(SortBy(s, lt), |pi|)
    ensures SortBy(RenameTrs(s, pi), lt) == RenameTrs(SortBy(s, lt), pi)
    decreases |s|
  {
    if s != [] {
      var n := |s| - 1;
      var p, x := s[..n], s[n];
      var sp := SortBy(p, lt);
      assert s == p + [x];
      LastDistinct(s, p, x, lt);
      SortRename(p, pi, lt);
      InsertRename(x, sp, pi, lt);
      SortRenameStep(s, pi, lt);
    }
  }

  /** The inductive step of `SortRename`, once the facts about the prefix are known. */
  lemma SortRenameStep<W>(s: seq<Tr<W>>, pi: seq<StateId>, lt: (W, W) -> bool)
    requires TargetsBelow(s, |pi|) && s != []
    requires TargetsBelow(SortBy(s[..|s| - 1], lt), |pi|)
    requires SortBy(RenameTrs(s[..|s| - 1], pi), lt) == RenameTrs(SortBy(s[..|s| - 1], lt), pi)
    requires TargetsBelow(Insert(s[|s| - 1], SortBy(s[..|s| - 1], lt), lt), |pi|)
    requires RenameTrs(Insert(s[|s| - 1], SortBy(s[..|s| - 1], lt), lt), pi)
             == Insert(RenameTr(s[|s| - 1], pi), RenameTrs(SortBy(s[..|s| - 1], lt), pi), lt)
    ensures TargetsBelow(SortBy(s, lt), |pi|)
    ensures SortBy(RenameTrs(s, pi), lt) == RenameTrs(SortBy(s, lt), pi)
  {
    var n := |s| - 1;
    var rs := RenameTrs(s, pi);
    RenamePrefix(s, pi, n);
    assert SortBy(rs, lt) == Insert(rs[n], SortBy(rs[..n], lt), lt);
  }

  // ---------------------------------------------------------------------------
  // What a pair of states must satisfy

  /** The `match` on the two final weights. */
  function FinalsMatch<W>(f1: Option<W>, f2: Option<W>, approx: (W, W) -> bool): bool
  {
    match (f1, f2)
    case (Some(w1), Some(w2)) => approx(w1, w2)
    case (Some(_), None) => false
    case (None, Some(_)) => false
    case (None, None) => true
  }

  /** Two transitions with equal labels and approximately equal weights. */
  predicate TrsMatch<W>(a: Tr<W>, b: Tr<W>, approx: (W, W) -> bool)
  {
    a.ilabel == b.ilabel && a.olabel == b.olabel && approx(a.weight, b.weight)
  }

  /**
   * The check `ismorphic_state` makes of `(s1, s2)` under the pairing `sp`:
   * same finality, as many transitions, and, once both lists are sorted,
   * transitions that match in order and whose destinations are paired.
   */
  ghost predicate StateMatch<W>(fst1: seq<VectorFstState<W>>, fst2: seq<VectorFstState<W>>, ops: WeightOps<W>,
                                sp: seq<Option<StateId>>, s1: StateId, s2: StateId)
  {
    && s1 < |fst1| && s2 < |fst2|
    && FinalsMatch(fst1[s1].final_weight, fst2[s2].final_weight, ops.approxEqual)
    && |fst1[s1].trs| == |fst2[s2].trs|
    && var t1, t2 := SortBy(fst1[s1].trs, ops.lt), SortBy(fst2[s2].trs, ops.lt);
       forall i :: 0 <= i < |t1| ==>
         TrsMatch(t1[i], t2[i], ops.approxEqual) && t1[i].nextstate < |sp| && sp[t1[i].nextstate] == Some(t2[i].nextstate)
  }

  /** Every paired state passes the check under the pairing itself. */
  ghost predicate Simulation<W>(fst1: seq<VectorFstState<W>>, fst2: seq<VectorFstState<W>>, ops: WeightOps<W>,
                                sp: seq<Option<StateId>>)
  {
    forall s :: 0 <= s < |sp| && sp[s].Some? ==> StateMatch(fst1, fst2, ops, sp, s, sp[s].value)
  }

  /** `sp2` keeps every pair of `sp1`. */
  predicate Extends(sp1: seq<Option<StateId>>, sp2: seq<Option<StateId>>)
  {
    |sp1| == |sp2| && forall s :: 0 <= s < |sp1| && sp1[s].Some? ==> sp2[s] == sp1[s]
  }

  /** Adjacent sorted transitions with equal labels and approximately equal weights. */
  ghost predicate Ambiguous<W>(fst1: seq<VectorFstState<W>>, ops: WeightOps<W>, s: StateId)
  {
    s < |fst1| &&
    var t := SortBy(fst1[s].trs, ops.lt);
    exists i :: 0 < i < |t| && TrsMatch(t[i], t[i - 1], ops.approxEqual)
  }

  /**
   * `pi` sends every state of `fst1` to a state of `fst2` with the same final
   * weight and the same transitions, destinations renumbered, in any order;
   * and the start to the start.
   */
  ghost predicate Maps<W>(fst1: seq<VectorFstState<W>>, start1: Option<StateId>, fst2: seq<VectorFstState<W>>,
                          start2: Option<StateId>, pi: seq<StateId>)
  {
    && TrsInRange(fst1) && |pi| == |fst1|
    && (forall s :: 0 <= s < |fst1| ==> pi[s] < |fst2| && fst2[pi[s]].final_weight == fst1[s].final_weight)
    && (forall s :: 0 <= s < |fst1| ==>
          (TargetsBelow(fst1[s].trs, |pi|) && multiset(fst2[pi[s]].trs) == multiset(RenameTrs(fst1[s].trs, pi))))
    && start1.Some? == start2.Some?
    && (start1.Some? ==> start1.value < |pi| && start2.value == pi[start1.value])
  }

  /** `fst2` is `fst1` with its states renumbered by the bijection `pi` and its transitions reordered. */
  ghost predicate IsRenumbering<W>(fst1: seq<VectorFstState<W>>, start1: Option<StateId>, fst2: seq<VectorFstState<W>>,
                                   start2: Option<StateId>, pi: seq<StateId>)
  {
    && Maps(fst1, start1, fst2, start2, pi) && |fst1| == |fst2|
    && forall s, t :: 0 <= s < |pi| && 0 <= t < |pi| && s != t ==> pi[s] != pi[t]
  }

  /** The conditions under which the check must succeed. */
  ghost predicate Complete<W(!new)>(fst1: seq<VectorFstState<W>>, start1: Option<StateId>, fst2: seq<VectorFstState<W>>,
                                    start2: Option<StateId>, ops: WeightOps<W>, pi: seq<StateId>)
  {
    && Maps(fst1, start1, fst2, start2, pi)
    && StrictTotal(ops.lt) && Reflexive(ops.approxEqual)
    && forall s :: 0 <= s < |fst1| ==> Unambiguous(fst1[s].trs, ops.approxEqual)
  }

  /** The pairing agrees with `pi`. */
  predicate Consistent(sp: seq<Option<StateId>>, pi: seq<StateId>)
  {
    |sp| == |pi| && forall s :: 0 <= s < |sp| && sp[s].Some? ==> sp[s].value == pi[s]
  }

  /** Under `Complete`, the sorted transitions of `pi[s]` are those of `s`, renumbered. */
  lemma SortedImage<W(!new)>(fst1: seq<VectorFstState<W>>, start1: Option<StateId>, fst2: seq<VectorFstState<W>>,
                             start2: Option<StateId>, ops: WeightOps<W>, pi: seq<StateId>, s: StateId)
    requires Complete(fst1, start1, fst2, start2, ops, pi) && s < |fst1|
    ensures TargetsBelow(SortBy(fst1[s].trs, ops.lt), |pi|)
    ensures SortBy(fst2[pi[s]].trs, ops.lt) == RenameTrs(SortBy(fst1[s].trs, ops.lt), pi)
  {
    var trs := fst1[s].trs;
    assert DistinctArcs(trs) by {
      forall i, j | 0 <= i < |trs| && 0 <= j < |trs| && i != j ensures !SameArc(trs[i], trs[j]) {
        assert ops.approxEqual(trs[i].weight, trs[i].weight);
      }
    }
    SortRename(trs, pi, ops.lt);
    SortBySorted(fst2[pi[s]].trs, ops.lt);
    SortBySorted(RenameTrs(trs, pi), ops.lt);
    SortedUnique(SortBy(fst2[pi[s]].trs, ops.lt), SortBy(RenameTrs(trs, pi), ops.lt), ops.lt);
  }

  /**
   * What `Complete` asks of one state `s`: its final weight matches that of
   * `pi[s]`, and the sorted transitions of `pi[s]` are those of `s`, renumbered.
   */
  ghost predicate ImageAt<W(!new)>(fst1: seq<VectorFstState<W>>, fst2: seq<VectorFstState<W>>, ops: WeightOps<W>,
                             pi: seq<StateId>, s: StateId)
  {
    && |pi| == |fst1| && s < |fst1| && pi[s] < |fst2| && Reflexive(ops.approxEqual)
    && FinalsMatch(fst1[s].final_weight, fst2[pi[s]].final_weight, ops.approxEqual)
    && |fst1[s].trs| == |fst2[pi[s]].trs|
    && TargetsBelow(SortBy(fst1[s].trs, ops.lt), |pi|)
    && SortBy(fst2[pi[s]].trs, ops.lt) == RenameTrs(SortBy(fst1[s].trs, ops.lt), pi)
  }

  /** `pi` maps the start to the start and every state as `ImageAt` asks. */
  ghost predicate ImageAll<W(!new)>(fst1: seq<VectorFstState<W>>, start1: Option<StateId>, fst2: seq<VectorFstState<W>>,
                                    start2: Option<StateId>, ops: WeightOps<W>, pi: seq<StateId>)
  {
    && |pi| == |fst1|
    && start1.Some? == start2.Some?
    && (start1.Some? ==> start1.value < |pi| && start2.value == pi[start1.value])
    && forall s :: 0 <= s < |fst1| ==> ImageAt(fst1, fst2, ops, pi, s)
  }

  /** Under `Complete`, every state is mapped as the check needs. */
  lemma CompleteImage<W(!new)>(fst1: seq<VectorFstState<W>>, start1: Option<StateId>, fst2: seq<VectorFstState<W>>,
                               start2: Option<StateId>, ops: WeightOps<W>, pi: seq<StateId>)
    requires Complete(fst1, start1, fst2, start2, ops, pi)
    ensures ImageAll(fst1, start1, fst2, start2, ops, pi)
  {
    forall s | 0 <= s < |fst1| ensures ImageAt(fst1, fst2, ops, pi, s) {
      SortedImage(fst1, start1, fst2, start2, ops, pi, s);
    }
  }

  // ---------------------------------------------------------------------------
  // The queue

  /** The states of `fst_1` whose pair is still waiting in the queue. */
  predicate Queued(q: seq<(StateId, StateId)>, s: StateId)
  {
    exists k :: 0 <= k < |q| && q[k].0 == s
  }

  /** Every queued pair is recorded, and no state is queued twice. */
  predicate QueueOk(sp: seq<Option<StateId>>, q: seq<(StateId, StateId)>)
  {
    && (forall k :: 0 <= k < |q| ==> q[k].0 < |sp| && sp[q[k].0] == Some(q[k].1))
    && (forall k, l :: 0 <= k < l < |q| ==> q[k].0 != q[l].0)
  }

  /** The number of states of `fst_1` not yet paired. */
  function Unpaired(sp: seq<Option<StateId>>): nat
  {
    if sp == [] then 0 else Unpaired(sp[..|sp| - 1]) + (if sp[|sp| - 1].None? then 1 else 0)
  }

  lemma {:induction false} UnpairedSet(sp: seq<Option<StateId>>, i: nat, v: StateId)
    requires i < |sp| && sp[i].None?
    ensures Unpaired(sp[i := Some(v)]) + 1 == Unpaired(sp)
    decreases |sp|
  {
    var n := |sp| - 1;
    if i < n {
      UnpairedSet(sp[..n], i, v);
      assert sp[i := Some(v)][..n] == sp[..n][i := Some(v)];
    } else {
      assert sp[i := Some(v)][..n] == sp[..n];
    }
  }

  /**
   * How the pairing and the queue may change while states are checked: pairs
   * are only added, the queue only grows at its back, every new pair is
   * queued, and each new pair uses up one unpaired state.
   */
  ghost predicate Grows(sp0: seq<Option<StateId>>, q0: seq<(StateId, StateId)>,
                        sp: seq<Option<StateId>>, q: seq<(StateId, StateId)>)
  {
    && Extends(sp0, sp)
    && |q0| <= |q| && (forall k :: 0 <= k < |q0| ==> q[k] == q0[k])
    && (forall s :: 0 <= s < |sp| && sp[s].Some? && sp0[s].None? ==> Queued(q, s))
    && Unpaired(sp) + |q| == Unpaired(sp0) + |q0|
  }

  lemma GrowsTrans(sp0: seq<Option<StateId>>, q0: seq<(StateId, StateId)>, sp1: seq<Option<StateId>>,
                   q1: seq<(StateId, StateId)>, sp2: seq<Option<StateId>>, q2: seq<(StateId, StateId)>)
    requires Grows(sp0, q0, sp1, q1) && Grows(sp1, q1, sp2, q2)
    ensures Grows(sp0, q0, sp2, q2)
  {
    forall s | 0 <= s < |sp2| && sp2[s].Some? && sp0[s].None? ensures Queued(q2, s) {
      if sp1[s].Some? {
        var k :| 0 <= k < |q1| && q1[k].0 == s;
        assert q2[k] == q1[k];
      }
    }
  }

  /** A successful `pair_state` on the `i`-th transitions extends the matched prefix by one. */
  lemma MatchedStep<W>(trs1: seq<Tr<W>>, trs2: seq<Tr<W>>, i: nat, approx: (W, W) -> bool,
                       sp1: seq<Option<StateId>>, sp: seq<Option<StateId>>)
    requires i < |trs1| && i < |trs2| && TargetsBelow(trs1, |sp1|) && Extends(sp1, sp)
    requires forall j :: 0 <= j < i ==>
               TrsMatch(trs1[j], trs2[j], approx) && sp1[trs1[j].nextstate] == Some(trs2[j].nextstate)
    requires TrsMatch(trs1[i], trs2[i], approx) && sp[trs1[i].nextstate] == Some(trs2[i].nextstate)
    ensures forall j :: 0 <= j < i + 1 ==>
              TrsMatch(trs1[j], trs2[j], approx) && sp[trs1[j].nextstate] == Some(trs2[j].nextstate)
  {
  }

  /** Recording a pair that agrees with `pi` keeps the pairing consistent with it. */
  lemma ConsistentStep(sp1: seq<Option<StateId>>, sp: seq<Option<StateId>>, pi: seq<StateId>, a: StateId)
    requires Consistent(sp1, pi) && a < |sp1|
    requires sp1[a].Some? ==> sp == sp1
    requires sp1[a].None? ==> sp == sp1[a := Some(pi[a])]
    ensures Consistent(sp, pi)
  {
  }

  /** A state that passed the check keeps passing it when pairs are added. */
  lemma StateMatchMono<W>(fst1: seq<VectorFstState<W>>, fst2: seq<VectorFstState<W>>, ops: WeightOps<W>,
                          sp: seq<Option<StateId>>, sp2: seq<Option<StateId>>, s1: StateId, s2: StateId)
    requires StateMatch(fst1, fst2, ops, sp, s1, s2) && Extends(sp, sp2)
    ensures StateMatch(fst1, fst2, ops, sp2, s1, s2)
  {
    var t1, t2 := SortBy(fst1[s1].trs, ops.lt), SortBy(fst2[s2].trs, ops.lt);
    forall i | 0 <= i < |t1| ensures t1[i].nextstate < |sp2| && sp2[t1[i].nextstate] == Some(t2[i].nextstate) {
      assert sp[t1[i].nextstate] == Some(t2[i].nextstate);
    }
  }

  /** The states of `fst_1` that are paired and no longer queued have passed the check. */
  ghost predicate Checked<W>(fst1: seq<VectorFstState<W>>, fst2: seq<VectorFstState<W>>, ops: WeightOps<W>,
                             sp: seq<Option<StateId>>, q: seq<(StateId, StateId)>)
  {
    forall s :: 0 <= s < |sp| && sp[s].Some? && !Queued(q, s) ==> StateMatch(fst1, fst2, ops, sp, s, sp[s].value)
  }

  /** Popping `(s1, s2)` and checking it successfully keeps `Checked`. */
  lemma CheckedStep<W>(fst1: seq<VectorFstState<W>>, fst2: seq<VectorFstState<W>>, ops: WeightOps<W>,
                       sp: seq<Option<StateId>>, q: seq<(StateId, StateId)>,
                       sp2: seq<Option<StateId>>, q2: seq<(StateId, StateId)>)
    requires q != [] && q[0].0 < |sp| && sp[q[0].0] == Some(q[0].1)
    requires Checked(fst1, fst2, ops, sp, q) && Grows(sp, q[1..], sp2, q2)
    requires StateMatch(fst1, fst2, ops, sp2, q[0].0, q[0].1)
    ensures Checked(fst1, fst2, ops, sp2, q2)
  {
    forall s | 0 <= s < |sp2| && sp2[s].Some? && !Queued(q2, s)
      ensures StateMatch(fst1, fst2, ops, sp2, s, sp2[s].value)
    {
      if s != q[0].0 && sp[s].Some? {
        forall k | 1 <= k < |q| ensures Queued(q2, q[k].0) {
          assert q2[k - 1] == q[k];
        }
        StateMatchMono(fst1, fst2, ops, sp, sp2, s, sp[s].value);
      }
    }
  }

  /** With the queue empty, every paired state has passed the check. */
  lemma CheckedDone<W>(fst1: seq<VectorFstState<W>>, fst2: seq<VectorFstState<W>>, ops: WeightOps<W>,
                       sp: seq<Option<StateId>>)
    requires Checked(fst1, fst2, ops, sp, [])
    ensures Simulation(fst1, fst2, ops, sp)
  {
  }

  /** Dropping the front of the queue keeps the queue in order. */
  lemma QueueTail(sp: seq<Option<StateId>>, q: seq<(StateId, StateId)>)
    requires QueueOk(sp, q) && q != []
    ensures QueueOk(sp, q[1..]) && q[0].0 < |sp| && sp[q[0].0] == Some(q[0].1)
  {
  }

  /** Under an image map the pairing agrees with, a queued pair is `(s, pi[s])` and `s` is mapped as the check needs. */
  lemma ImageOfPaired<W(!new)>(fst1: seq<VectorFstState<W>>, start1: Option<StateId>, fst2: seq<VectorFstState<W>>,
                               start2: Option<StateId>, ops: WeightOps<W>, pi: seq<StateId>,
                               sp: seq<Option<StateId>>, s1: StateId, s2: StateId)
    requires ImageAll(fst1, start1, fst2, start2, ops, pi) && Consistent(sp, pi)
    requires s1 < |sp| && sp[s1] == Some(s2)
    ensures ImageAt(fst1, fst2, ops, pi, s1) && s2 == pi[s1]
  {
  }

  /** The error of `final_weight(s2)?` on a state outside `fst_2`. */
  const MissingState := "State doesn't exist"

  /** The error `isomorphic` raises on a failure after `non_det` was set. */
  const NonDeterminism := "Isomorphic: Non-determinism as an unweighted automaton"

  /** Some state is paired with a state outside a machine of `n` states. */
  predicate PairedOutside(sp: seq<Option<StateId>>, n: nat)
  {
    exists s :: 0 <= s < |sp| && sp[s].Some? && sp[s].value >= n
  }

  class Isomorphism<W(!new)> {
    const fst1: seq<VectorFstState<W>>
    const start1: Option<StateId>
    const fst2: seq<VectorFstState<W>>
    const start2: Option<StateId>
    const ops: WeightOps<W>
    var statePairs: seq<Option<StateId>>
    var queue: seq<(StateId, StateId)>
    var nonDet: bool
    /** Whether `fst_2` is well formed, fixed when the check is set up. */
    ghost const inRange2: bool

    /**
     * `fst_1` is well formed: `state_pairs` is indexed by its states, so a
     * start or a destination outside it would panic.
     */
    ghost predicate Wf()
    {
      TrsInRange(fst1) && StartInRange(fst1, start1)
    }

    /**
     * `fst_2` is well formed too. Nothing demands it: a state of `fst_2`
     * outside the machine is paired like any other and only reported, as an
     * error, when its pair is checked.
     */
    ghost predicate InRange2()
    {
      TrsInRange(fst2) && StartInRange(fst2, start2)
    }

    ghost predicate Valid()
      reads this
    {
      && Wf()
      && |statePairs| == |fst1|
      && (inRange2 ==> InRange2())
      && (inRange2 ==> forall s :: 0 <= s < |statePairs| && statePairs[s].Some? ==> statePairs[s].value < |fst2|)
      && QueueOk(statePairs, queue)
    }

    /** `Isomorphism::new`: nothing paired, nothing queued. */
    constructor(fst1: seq<VectorFstState<W>>, start1: Option<StateId>, fst2: seq<VectorFstState<W>>,
                start2: Option<StateId>, ops: WeightOps<W>)
      requires TrsInRange(fst1) && StartInRange(fst1, start1)
      ensures Valid()
      ensures this.fst1 == fst1 && this.start1 == start1 && this.fst2 == fst2 && this.start2 == start2 && this.ops == ops
      ensures inRange2 == InRange2()
      ensures (forall s :: 0 <= s < |statePairs| ==> statePairs[s].None?) && queue == [] && !nonDet
    {
      this.fst1, this.start1, this.fst2, this.start2, this.ops := fst1, start1, fst2, start2, ops;
      inRange2 := TrsInRange(fst2) && StartInRange(fst2, start2);
      statePairs := seq(|fst1|, _ => None);
      queue := [];
      nonDet := false;
    }

    /**
     * `pair_state`: a pair already recorded succeeds, a state already paired
     * with another state fails, and a new pair is recorded and queued. A
     * recorded pair is never changed.
     */
    method PairState(s1: StateId, s2: StateId) returns (b: bool)
      requires Valid() && s1 < |fst1| && (inRange2 ==> s2 < |fst2|)
      modifies this
      ensures Valid() && Grows(old(statePairs), old(queue), statePairs, queue) && nonDet == old(nonDet)
      ensures b <==> statePairs[s1] == Some(s2)
      ensures old(statePairs[s1]).Some? ==> statePairs == old(statePairs) && queue == old(queue)
      ensures old(statePairs[s1]).None? ==> statePairs == old(statePairs)[s1 := Some(s2)] && queue == old(queue) + [(s1, s2)]
    {
      if statePairs[s1] == Some(s2) {
        return true;
      } else if statePairs[s1].Some? {
        return false;
      }
      UnpairedSet(statePairs, s1, s2);
      statePairs := statePairs[s1 := Some(s2)];
      queue := queue + [(s1, s2)];
      assert queue[|queue| - 1].0 == s1;
      return true;
    }

    /**
     * The loop of `ismorphic_state` over the sorted transitions `trs1` and
     * `trs2`: it succeeds exactly when every pair of transitions at the same
     * position matches and its destinations can be paired; it raises
     * `non_det` only for two adjacent matching transitions of `trs1`; and it
     * succeeds whenever `trs2` is `trs1` renumbered by a map `pi` the pairing
     * agrees with.
     */
    method PairTrs(trs1: seq<Tr<W>>, trs2: seq<Tr<W>>, ghost pi: seq<StateId>) returns (b: bool)
      requires Valid() && |trs1| == |trs2| && TargetsBelow(trs1, |fst1|) && (inRange2 ==> TargetsBelow(trs2, |fst2|))
      modifies this
      ensures Valid() && Grows(old(statePairs), old(queue), statePairs, queue)
      ensures b ==> forall j :: 0 <= j < |trs1| ==>
                      TrsMatch(trs1[j], trs2[j], ops.approxEqual) && statePairs[trs1[j].nextstate] == Some(trs2[j].nextstate)
      ensures nonDet ==> old(nonDet) || exists i :: 0 < i < |trs1| && TrsMatch(trs1[i], trs1[i - 1], ops.approxEqual)
      ensures && Consistent(old(statePairs), pi) && Reflexive(ops.approxEqual)
              && TargetsBelow(trs1, |pi|) && trs2 == RenameTrs(trs1, pi)
              ==> b && Consistent(statePairs, pi)
    {
      ghost var sp0, q0 := statePairs, queue;
      ghost var complete := Consistent(sp0, pi) && Reflexive(ops.approxEqual)
                            && TargetsBelow(trs1, |pi|) && trs2 == RenameTrs(trs1, pi);
      for i := 0 to |trs1|
        invariant Valid() && Grows(sp0, q0, statePairs, queue)
        invariant nonDet ==> old(nonDet) || exists k :: 0 < k < |trs1| && TrsMatch(trs1[k], trs1[k - 1], ops.approxEqual)
        invariant forall j :: 0 <= j < i ==>
          TrsMatch(trs1[j], trs2[j], ops.approxEqual) && statePairs[trs1[j].nextstate] == Some(trs2[j].nextstate)
        invariant complete ==> Consistent(statePairs, pi)
      {
        var tr1, tr2 := trs1[i], trs2[i];
        if tr1.ilabel != tr2.ilabel {
          return false;
        }
        if tr1.olabel != tr2.olabel {
          return false;
        }
        if !ops.approxEqual(tr1.weight, tr2.weight) {
          return false;
        }
        ghost var sp1, q1 := statePairs, queue;
        var paired := PairState(tr1.nextstate, tr2.nextstate);
        if !paired {
          return false;
        }
        MatchedStep(trs1, trs2, i, ops.approxEqual, sp1, statePairs);
        if complete {
          ConsistentStep(sp1, statePairs, pi, tr1.nextstate);
        }
        if i > 0 {
          var tr0 := trs1[i - 1];
          if tr1.ilabel == tr0.ilabel && tr1.olabel == tr0.olabel && ops.approxEqual(tr1.weight, tr0.weight) {
            nonDet := true;
          }
        }
        GrowsTrans(sp0, q0, sp1, q1, statePairs, queue);
      }
      return true;
    }

    /**
     * `ismorphic_state(s1, s2)`: a state `s2` outside `fst_2` is the error of
     * `final_weight(s2)?` and changes nothing; otherwise true exactly when
     * the pair passes the check under the pairing it leaves behind, false
     * when the finalities or the numbers of transitions differ, and true
     * whenever `pi` maps `s1` to `s2` as `Complete` asks and the pairing
     * agrees with `pi`. `non_det` is raised only for ambiguous transitions
     * of `s1`.
     */
    method IsomorphicState(s1: StateId, s2: StateId, ghost pi: seq<StateId>) returns (r: Result<bool>)
      requires Valid() && s1 < |fst1| && (inRange2 ==> s2 < |fst2|)
      modifies this
      ensures Valid() && Grows(old(statePairs), old(queue), statePairs, queue)
      ensures r.Err? <==> s2 >= |fst2|
      ensures r.Err? ==> r == Err(MissingState) && statePairs == old(statePairs) && queue == old(queue)
      ensures r == Ok(true) ==> StateMatch(fst1, fst2, ops, statePairs, s1, s2)
      ensures s2 < |fst2| && !FinalsMatch(fst1[s1].final_weight, fst2[s2].final_weight, ops.approxEqual) ==> r == Ok(false)
      ensures s2 < |fst2| && |fst1[s1].trs| != |fst2[s2].trs| ==> r == Ok(false)
      ensures nonDet ==> old(nonDet) || Ambiguous(fst1, ops, s1)
      ensures ImageAt(fst1, fst2, ops, pi, s1) && Consistent(old(statePairs), pi) && s2 == pi[s1]
              ==> r == Ok(true) && Consistent(statePairs, pi)
    {
      if s2 >= |fst2| {
        return Err(MissingState);
      }
      var fwEqual := FinalsMatch(fst1[s1].final_weight, fst2[s2].final_weight, ops.approxEqual);
      if !fwEqual {
        return Ok(false);
      }
      if |fst1[s1].trs| != |fst2[s2].trs| {
        return Ok(false);
      }
      var trs1 := SortBy(fst1[s1].trs, ops.lt);
      var trs2 := SortBy(fst2[s2].trs, ops.lt);
      SortTargets(fst1[s1].trs, |fst1|, ops.lt);
      if inRange2 {
        SortTargets(fst2[s2].trs, |fst2|, ops.lt);
      }
      var b := PairTrs(trs1, trs2, pi);
      return Ok(b);
    }

    /**
     * One round of the loop of `isomorphic`: pop the front pair and check it.
     * The pairing only grows and the measure `Unpaired + |queue|` drops; on
     * success every paired, unqueued state has passed the check; an error
     * means a state outside `fst_2` was paired; `non_det` is raised only with
     * a paired ambiguous state as witness; and the check succeeds while the
     * pairing agrees with an image map `pi`.
     */
    method PopAndCheck(ghost pi: seq<StateId>, ghost complete: bool, ghost culprit: StateId)
      returns (r: Result<bool>, ghost culprit': StateId)
      requires Valid() && queue != [] && Checked(fst1, fst2, ops, statePairs, queue)
      requires nonDet ==> culprit < |fst1| && statePairs[culprit].Some? && Ambiguous(fst1, ops, culprit)
      requires complete ==> ImageAll(fst1, start1, fst2, start2, ops, pi) && Consistent(statePairs, pi)
      modifies this
      ensures Valid() && Extends(old(statePairs), statePairs)
      ensures Unpaired(statePairs) + |queue| < old(Unpaired(statePairs) + |queue|)
      ensures r == Ok(true) ==> Checked(fst1, fst2, ops, statePairs, queue)
      ensures r.Err? ==> r == Err(MissingState) && PairedOutside(statePairs, |fst2|)
      ensures nonDet ==> culprit' < |fst1| && statePairs[culprit'].Some? && Ambiguous(fst1, ops, culprit')
      ensures complete ==> r == Ok(true) && Consistent(statePairs, pi)
    {
      var s1, s2 := queue[0].0, queue[0].1;
      ghost var sp1, q1, nd1 := statePairs, queue, nonDet;
      QueueTail(statePairs, queue);
      if complete {
        ImageOfPaired(fst1, start1, fst2, start2, ops, pi, statePairs, s1, s2);
      }
      queue := queue[1..];
      r := IsomorphicState(s1, s2, pi);
      culprit' := if nonDet && !nd1 then s1 else culprit;
      if r == Ok(true) {
        CheckedStep(fst1, fst2, ops, sp1, q1, statePairs, queue);
      }
    }

    /**
     * `isomorphic`: two machines without a start are isomorphic, one without
     * a start is not isomorphic to one with a start; otherwise the starts are
     * paired and the queued pairs are checked in order. A successful answer
     * means every paired state passes the check under the final pairing
     * (a simulation of `fst_1` by `fst_2` from the starts). There are two
     * errors: a state outside `fst_2` that got paired (the `?` of
     * `ismorphic_state`), which a well-formed `fst_2` never gives; and a
     * failure after `non_det` was raised, and then some paired state has
     * ambiguous transitions. When `fst_2` is `fst_1` through a map `pi` as
     * `Complete` asks, the answer is true.
     */
    method Isomorphic(ghost pi: seq<StateId>) returns (r: Result<bool>)
      requires Valid() && (forall s :: 0 <= s < |statePairs| ==> statePairs[s].None?) && queue == [] && !nonDet
      modifies this
      ensures Valid()
      ensures start1.None? && start2.None? ==> r == Ok(true)
      ensures start1.None? != start2.None? ==> r == Ok(false)
      ensures r == Ok(true) && start1.Some? ==>
                statePairs[start1.value] == Some(start2.value) && Simulation(fst1, fst2, ops, statePairs)
      ensures r == Err(MissingState) ==> PairedOutside(statePairs, |fst2|) && !inRange2
      ensures r.Err? && r != Err(MissingState) ==>
                r == Err(NonDeterminism) && exists s :: 0 <= s < |fst1| && statePairs[s].Some? && Ambiguous(fst1, ops, s)
      ensures ImageAll(fst1, start1, fst2, start2, ops, pi) ==> r == Ok(true)
    {
      if start1.None? && start2.None? {
        return Ok(true);
      }
      if start1.None? || start2.None? {
        return Ok(false);
      }
      ghost var complete := ImageAll(fst1, start1, fst2, start2, ops, pi);
      ghost var sp0 := statePairs;
      var _ := PairState(start1.value, start2.value);
      if complete {
        ConsistentStep(sp0, statePairs, pi, start1.value);
      }
      ghost var culprit: StateId := 0;
      while queue != []
        invariant Valid() && statePairs[start1.value] == Some(start2.value)
        invariant Checked(fst1, fst2, ops, statePairs, queue)
        invariant nonDet ==> culprit < |fst1| && statePairs[culprit].Some? && Ambiguous(fst1, ops, culprit)
        invariant complete ==> Consistent(statePairs, pi)
        decreases Unpaired(statePairs) + |queue|
      {
        var checked;
        checked, culprit := PopAndCheck(pi, complete, culprit);
        if checked.Err? {
          return checked;
        }
        if !checked.value {
          if nonDet {
            return Err(NonDeterminism);
          }
          return Ok(false);
        }
      }
      CheckedDone(fst1, fst2, ops, statePairs);
      return Ok(true);
    }
  }

  // ---------------------------------------------------------------------------
  // The two cases of the unit tests, over integer weights

  /** Integer weights ordered by `<` and compared exactly. */
  function IntOps(): (ops: WeightOps<int>)
    ensures forall a: int, b: int :: ops.lt(a, b) <==> a < b
    ensures forall a: int, b: int :: ops.approxEqual(a, b) <==> a == b
  {
    WeightOps((a: int, b: int) => a < b, (a: int, b: int) => a == b)
  }

  lemma IntOpsComplete()
    ensures StrictTotal(IntOps().lt) && Reflexive(IntOps().approxEqual)
  {
  }

  /** `0 -12:25-> 1`, with `1` final. */
  function OneArc(): seq<VectorFstState<int>>
  {
    [VectorFstState(None, [Tr(12, 25, 0, 1)]), VectorFstState(Some(0), [])]
  }

  /** The same machine with its two states swapped is found isomorphic. */
  lemma SwappedExample()
    ensures Complete(OneArc(), Some(0), [VectorFstState(Some(0), []), VectorFstState(None, [Tr(12, 25, 0, 0)])],
                     Some(1), IntOps(), [1, 0])
  {
    var fst1, fst2, pi := OneArc(), [VectorFstState(Some(0), []), VectorFstState(None, [Tr(12, 25, 0, 0)])], [1, 0];
    IntOpsComplete();
    assert TrsInRange(fst1);
    assert RenameTrs(fst1[0].trs, pi) == fst2[1].trs;
    assert RenameTrs(fst1[1].trs, pi) == fst2[0].trs;
    forall s | 0 <= s < |fst1|
      ensures pi[s] < |fst2| && fst2[pi[s]].final_weight == fst1[s].final_weight
      ensures TargetsBelow(fst1[s].trs, |pi|) && multiset(fst2[pi[s]].trs) == multiset(RenameTrs(fst1[s].trs, pi))
      ensures Unambiguous(fst1[s].trs, IntOps().approxEqual)
    {
      assert s == 0 || s == 1;
    }
  }

  /** An extra transition out of the start makes the start pair fail, so the answer is not true. */
  lemma AddedTrExample(sp: seq<Option<StateId>>)
    ensures !(|sp| == 2 && sp[0] == Some(0) &&
              Simulation(OneArc(), [VectorFstState(None, [Tr(12, 25, 0, 1), Tr(33, 45, 0, 1)]), VectorFstState(Some(0), [])],
                         IntOps(), sp))
  {
    var fst2 := [VectorFstState(None, [Tr(12, 25, 0, 1), Tr(33, 45, 0, 1)]), VectorFstState(Some(0), [])];
    if |sp| == 2 && sp[0] == Some(0) {
      assert !StateMatch(OneArc(), fst2, IntOps(), sp, 0, 0);
    }
  }

  /**
   * The pairing is not required to be one to one: two final states of a
   * three-state machine may both be paired with the one final state of a
   * two-state machine, and then the answer is true although no renumbering
   * turns one machine into the other.
   */
  lemma MergedStatesExample()
    ensures Complete(ThreeStates(), Some(0), TwoStates(), Some(0), IntOps(), [0, 1, 1])
    ensures forall pi :: !IsRenumbering(ThreeStates(), Some(0), TwoStates(), Some(0), pi)
  {
    IntOpsComplete();
    ThreeStatesMap();
    ThreeStatesUnambiguous();
  }

  lemma ThreeStatesMap()
    ensures Maps(ThreeStates(), Some(0), TwoStates(), Some(0), [0, 1, 1])
  {
    var fst1, fst2, pi := ThreeStates(), TwoStates(), [0, 1, 1];
    assert TrsInRange(fst1);
    assert RenameTrs(fst1[0].trs, pi) == fst2[0].trs;
    assert RenameTrs(fst1[1].trs, pi) == [] && RenameTrs(fst1[2].trs, pi) == [];
    forall s | 0 <= s < |fst1|
      ensures pi[s] < |fst2| && fst2[pi[s]].final_weight == fst1[s].final_weight
      ensures TargetsBelow(fst1[s].trs, |pi|) && multiset(fst2[pi[s]].trs) == multiset(RenameTrs(fst1[s].trs, pi))
    {
    }
  }

  lemma ThreeStatesUnambiguous()
    ensures forall s :: 0 <= s < |ThreeStates()| ==> Unambiguous(ThreeStates()[s].trs, IntOps().approxEqual)
  {
    var fst1 := ThreeStates();
    forall s | 0 <= s < |fst1| ensures Unambiguous(fst1[s].trs, IntOps().approxEqual) {
      assert s == 0 || fst1[s].trs == [];
    }
  }

  /** `0 -1:1-> 1` and `0 -2:2-> 2`, with `1` and `2` final. */
  function ThreeStates(): seq<VectorFstState<int>>
  {
    [VectorFstState(None, [Tr(1, 1, 0, 1), Tr(2, 2, 0, 2)]), VectorFstState(Some(0), []), VectorFstState(Some(0), [])]
  }

  /** `0 -1:1-> 1` and `0 -2:2-> 1`, with `1` final. */
  function TwoStates(): seq<VectorFstState<int>>
  {
    [VectorFstState(None, [Tr(1, 1, 0, 1), Tr(2, 2, 0, 1)]), VectorFstState(Some(0), [])]
  }

}
