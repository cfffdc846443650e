/**
 * `tr_unique`: sorts every state's transitions by `tr_compare` and removes
 * duplicates, by calling `unique_trs_unchecked` on each state.
 */
module TrUniques {
  import opened FstTypes
  import opened TrCompare
  import opened VectorFsts

  /** The transitions of a state after `unique_trs_unchecked`. */
  function UniqueTrs<W(==)>(trs: seq<Tr<W>>): seq<Tr<W>>
  {
    Dedup(SortTrs(trs))
  }

  /** `tr_unique(ifst)`: every state in turn; the number of states and the start are unchanged. */
  method TrUnique<W(==)>(fst: VectorFst<W>)
    modifies fst
    ensures fst.start == old(fst.start) && |fst.states| == |old(fst.states)|
    ensures forall s :: 0 <= s < |fst.states| ==>
              fst.states[s] == old(fst.states)[s].(trs := UniqueTrs(old(fst.states)[s].trs))
  {
    var s := 0;
    while s < |fst.states|
      invariant 0 <= s <= |fst.states| == |old(fst.states)|
      invariant fst.start == old(fst.start)
      invariant forall q :: 0 <= q < s ==> fst.states[q] == old(fst.states)[q].(trs := UniqueTrs(old(fst.states)[q].trs))
      invariant forall q :: s <= q < |fst.states| ==> fst.states[q] == old(fst.states)[q]
    {
      fst.UniqueTrsUnchecked(s);
      s := s + 1;
    }
  }

  /**
   * What `tr_unique` leaves in a state: the transitions sorted by
   * `tr_compare`, every transition that was there still there and nothing
   * new, and no two neighbours equal (label, weight and destination).
   */
  lemma UniqueTrsCorrect<W>(trs: seq<Tr<W>>)
    ensures Sorted(UniqueTrs(trs))
    ensures forall t :: t in UniqueTrs(trs) <==> t in trs
    ensures forall i :: 0 <= i < |UniqueTrs(trs)| - 1 ==> UniqueTrs(trs)[i] != UniqueTrs(trs)[i + 1]
  {
    SortTrsSorted(trs);
    SortTrsPerm(trs);
    DedupCorrect(SortTrs(trs));
    forall t ensures t in SortTrs(trs) <==> t in trs {
      assert t in multiset(SortTrs(trs)) <==> t in multiset(trs);
    }
  }

  /**
   * What `tr_unique` promises but does not do: a transition repeated with a
   * different one of the same key in between stays repeated, because the
   * stable sort keeps the three in their order and `dedup` only compares
   * neighbours.
   */
  lemma UniqueTrsKeepsDuplicate()
    ensures var t1 := Tr(1, 2, 1, 1);
            var t2 := Tr(1, 2, 2, 1);
            UniqueTrs([t1, t2, t1]) == [t1, t2, t1]
  {
    var t1 := Tr(1, 2, 1, 1);
    var t2 := Tr(1, 2, 2, 1);
    assert SortTrs([t1]) == Insert(t1, []) == [t1];
    assert [t1, t2][..1] == [t1];
    assert Insert(t2, [t1]) == [t1] + Insert(t2, [t1][1..]) == [t1, t2];
    assert SortTrs([t1, t2]) == [t1, t2];
    assert [t1, t2, t1][..2] == [t1, t2];
    assert Insert(t1, [t2]) == [t2] + Insert(t1, [t2][1..]) == [t2, t1];
    assert Insert(t1, [t1, t2]) == [t1] + Insert(t1, [t1, t2][1..]) == [t1, t2, t1];
    assert SortTrs([t1, t2, t1]) == [t1, t2, t1];
    assert Dedup([t1]) == [t1];
    assert Dedup([t1, t2]) == [t1, t2];
  }

  /** Keeps the first occurrence of every value, wherever the others are. */
  function Distinct<T(==)>(s: seq<T>): seq<T>
  {
    if s == [] then []
    else
      var r := Distinct(s[..|s| - 1]);
      if s[|s| - 1] in r then r else r + [s[|s| - 1]]
  }

  /** The intended `tr_unique` of a state: sorted by `tr_compare`, then one instance of each transition. */
  function UniqueTrsIntended<W(==)>(trs: seq<Tr<W>>): seq<Tr<W>>
  {
    Distinct(SortTrs(trs))
  }

  lemma {:induction false} DistinctElems<T>(s: seq<T>)
    ensures forall x :: x in Distinct(s) <==> x in s
    ensures forall i, j :: 0 <= i < j < |Distinct(s)| ==> Distinct(s)[i] != Distinct(s)[j]
    decreases |s|
  {
    if s != [] {
      var p := s[..|s| - 1];
      DistinctElems(p);
      assert s == p + [s[|s| - 1]];
    }
  }

  lemma DistinctAt<T>(s: seq<T>, i: nat)
    requires i < |Distinct(s)|
    ensures Distinct(s)[i] in s
  {
    DistinctElems(s);
    assert Distinct(s)[i] in Distinct(s);
  }

  lemma {:induction false} DistinctSorted<W>(s: seq<Tr<W>>)
    requires Sorted(s)
    ensures Sorted(Distinct(s))
    decreases |s|
  {
    if s != [] {
      var p := s[..|s| - 1];
      var x := s[|s| - 1];
      DistinctSorted(p);
      DistinctElems(p);
      var r := Distinct(p);
      if x !in r {
        forall i | 0 <= i < |r| ensures LessEq(r[i], x) {
          DistinctAt(p, i);
          var m :| 0 <= m < |p| && p[m] == r[i];
          assert s[m] == r[i];
        }
      }
    }
  }

  /**
   * The intended `tr_unique` keeps a single instance of each transition of
   * the state: sorted, the same transitions, and no two equal anywhere.
   */
  lemma UniqueTrsIntendedCorrect<W>(trs: seq<Tr<W>>)
    ensures Sorted(UniqueTrsIntended(trs))
    ensures forall t :: t in UniqueTrsIntended(trs) <==> t in trs
    ensures forall i, j :: 0 <= i < j < |UniqueTrsIntended(trs)| ==> UniqueTrsIntended(trs)[i] != UniqueTrsIntended(trs)[j]
  {
    SortTrsSorted(trs);
    SortTrsPerm(trs);
    DistinctElems(SortTrs(trs));
    DistinctSorted(SortTrs(trs));
    forall t ensures t in SortTrs(trs) <==> t in trs {
      assert t in multiset(SortTrs(trs)) <==> t in multiset(trs);
    }
  }
}
