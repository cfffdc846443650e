/**
 * `tr_compare` (the order of transitions by input label, output label and
 * destination, weights ignored) and the two `Vec` operations that
 * `unique_trs_unchecked` and `sum_trs_unchecked` apply with it: the stable
 * `sort_by(tr_compare)` and `dedup`.
 */
module TrCompare {
  import opened FstTypes

  datatype Ordering = Less | Equal | Greater

  /**
   * `tr_compare`: lexicographic on (ilabel, olabel, nextstate); the weight
   * plays no part, so two transitions compare Equal exactly when their keys
   * are equal.
   */
  function Compare<W>(a: Tr<W>, b: Tr<W>): (r: Ordering)
    ensures r == Equal <==> SameKey(a, b)
    ensures r == Less <==>
              || a.ilabel < b.ilabel
              || (a.ilabel == b.ilabel && a.olabel < b.olabel)
              || (a.ilabel == b.ilabel && a.olabel == b.olabel && a.nextstate < b.nextstate)
  {
    if a.ilabel < b.ilabel then Less
    else if a.ilabel > b.ilabel then Greater
    else if a.olabel < b.olabel then Less
    else if a.olabel > b.olabel then Greater
    else if a.nextstate < b.nextstate then Less
    else if a.nextstate > b.nextstate then Greater
    else Equal
  }

  /** Two transitions with the same (ilabel, olabel, nextstate) key. */
  predicate SameKey<W>(a: Tr<W>, b: Tr<W>)
  {
    a.ilabel == b.ilabel && a.olabel == b.olabel && a.nextstate == b.nextstate
  }

  predicate LessEq<W>(a: Tr<W>, b: Tr<W>)
  {
    Compare(a, b) != Greater
  }

  /** `tr_compare` is a total preorder whose ties are exactly the equal keys. */
  lemma CompareIsKeyOrder<W>(a: Tr<W>, b: Tr<W>)
    ensures Compare(a, b) == Equal <==> SameKey(a, b)
    ensures Compare(a, b) == Less <==> Compare(b, a) == Greater
    ensures LessEq(a, b) || LessEq(b, a)
  {
  }

  lemma LessEqTrans<W>(a: Tr<W>, b: Tr<W>, c: Tr<W>)
    requires LessEq(a, b) && LessEq(b, c)
    ensures LessEq(a, c)
  {
  }

  lemma GreaterTrans<W>(a: Tr<W>, b: Tr<W>, c: Tr<W>)
    requires Compare(a, c) == Greater && LessEq(a, b)
    ensures Compare(b, c) == Greater
  {
  }

  /** Sorted by `tr_compare`, every pair in order. */
  predicate Sorted<W>(s: seq<Tr<W>>)
  {
    forall i, j :: 0 <= i < j < |s| ==> LessEq(s[i], s[j])
  }

  /** Places `x` after every element that is not greater than it. */
  function Insert<W>(x: Tr<W>, s: seq<Tr<W>>): seq<Tr<W>>
  {
    if s == [] then [x]
    else if Compare(s[0], x) == Greater then [x] + s
    else [s[0]] + Insert(x, s[1..])
  }

  /**
   * `Vec::sort_by(tr_compare)`, Rust's stable sort, written as an insertion
   * sort: each element goes after the elements before it that compare equal.
   */
  function SortTrs<W>(s: seq<Tr<W>>): seq<Tr<W>>
  {
    if s == [] then [] else Insert(s[|s| - 1], SortTrs(s[..|s| - 1]))
  }

  /** The subsequence of the transitions of `s` with the key of `k`. */
  function KeyRun<W>(s: seq<Tr<W>>, k: Tr<W>): seq<Tr<W>>
  {
    if s == [] then []
    else KeyRun(s[..|s| - 1], k) + (if SameKey(s[|s| - 1], k) then [s[|s| - 1]] else [])
  }

  lemma {:induction false} KeyRunCons<W>(x: Tr<W>, s: seq<Tr<W>>, k: Tr<W>)
    ensures KeyRun([x] + s, k) == (if SameKey(x, k) then [x] else []) + KeyRun(s, k)
    decreases |s|
  {
    if s != [] {
      assert ([x] + s)[..|[x] + s| - 1] == [x] + s[..|s| - 1];
      KeyRunCons(x, s[..|s| - 1], k);
    } else {
      assert ([x] + s)[..0] == [];
    }
  }

  lemma {:induction false} KeyRunEmpty<W>(s: seq<Tr<W>>, k: Tr<W>)
    requires forall j :: 0 <= j < |s| ==> !SameKey(s[j], k)
    ensures KeyRun(s, k) == []
    decreases |s|
  {
    if s != [] {
      KeyRunEmpty(s[..|s| - 1], k);
    }
  }

  lemma {:induction false} InsertPerm<W>(x: Tr<W>, s: seq<Tr<W>>)
    ensures multiset(Insert(x, s)) == multiset(s) + multiset{x}
    decreases |s|
  {
    if s != [] && Compare(s[0], x) != Greater {
      InsertPerm(x, s[1..]);
      assert s == [s[0]] + s[1..];
    }
  }

  lemma {:induction false} InsertSorted<W>(x: Tr<W>, s: seq<Tr<W>>)
    requires Sorted(s)
    ensures Sorted(Insert(x, s))
    decreases |s|
  {
    if s == [] {
    } else if Compare(s[0], x) == Greater {
      CompareIsKeyOrder(s[0], x);
      forall i, j | 0 <= i < j < |[x] + s| ensures LessEq(([x] + s)[i], ([x] + s)[j]) {
        if i == 0 {
          LessEqTrans(x, s[0], s[j - 1]);
        } else {
          assert ([x] + s)[i] == s[i - 1] && ([x] + s)[j] == s[j - 1];
        }
      }
    } else {
      InsertSorted(x, s[1..]);
      InsertPerm(x, s[1..]);
      var t := Insert(x, s[1..]);
      forall j | 0 <= j < |t| ensures LessEq(s[0], t[j]) {
        assert t[j] in multiset(t);
        if t[j] != x {
          assert t[j] in multiset(s[1..]);
          var m :| 0 <= m < |s[1..]| && s[1..][m] == t[j];
          assert s[m + 1] == t[j];
        }
      }
      forall i, j | 0 <= i < j < |[s[0]] + t| ensures LessEq(([s[0]] + t)[i], ([s[0]] + t)[j]) {
        if i > 0 { assert ([s[0]] + t)[i] == t[i - 1] && ([s[0]] + t)[j] == t[j - 1]; }
      }
    }
  }

  lemma {:induction false} InsertKeyRun<W>(x: Tr<W>, s: seq<Tr<W>>, k: Tr<W>)
    requires Sorted(s)
    ensures KeyRun(Insert(x, s), k) == KeyRun(s, k) + (if SameKey(x, k) then [x] else [])
    decreases |s|
  {
    if s == [] {
      assert [x][..0] == [];
    } else if Compare(s[0], x) == Greater {
      KeyRunCons(x, s, k);
      if SameKey(x, k) {
        forall j | 0 <= j < |s| ensures !SameKey(s[j], k) {
          if j > 0 { GreaterTrans(s[0], s[j], x); }
        }
        KeyRunEmpty(s, k);
      }
    } else {
      assert s == [s[0]] + s[1..];
      InsertKeyRun(x, s[1..], k);
      KeyRunCons(s[0], Insert(x, s[1..]), k);
      KeyRunCons(s[0], s[1..], k);
    }
  }

  lemma {:induction false} SortTrsSorted<W>(s: seq<Tr<W>>)
    ensures Sorted(SortTrs(s))
    decreases |s|
  {
    if s != [] {
      SortTrsSorted(s[..|s| - 1]);
      InsertSorted(s[|s| - 1], SortTrs(s[..|s| - 1]));
    }
  }

  lemma {:induction false} SortTrsPerm<W>(s: seq<Tr<W>>)
    ensures multiset(SortTrs(s)) == multiset(s)
    decreases |s|
  {
    if s != [] {
      var p := s[..|s| - 1];
      SortTrsPerm(p);
      InsertPerm(s[|s| - 1], SortTrs(p));
      assert s == p + [s[|s| - 1]];
    }
  }

  lemma {:induction false} SortTrsStable<W>(s: seq<Tr<W>>, k: Tr<W>)
    ensures KeyRun(SortTrs(s), k) == KeyRun(s, k)
    decreases |s|
  {
    if s != [] {
      var p := s[..|s| - 1];
      SortTrsStable(p, k);
      SortTrsSorted(p);
      InsertKeyRun(s[|s| - 1], SortTrs(p), k);
    }
  }

  /**
   * The stable sort puts the transitions in `tr_compare` order, keeps every
   * transition (weights included) exactly as often as before, and keeps the
   * transitions of each key in their original order.
   */
  lemma SortTrsCorrect<W>(s: seq<Tr<W>>, k: Tr<W>)
    ensures Sorted(SortTrs(s))
    ensures multiset(SortTrs(s)) == multiset(s)
    ensures KeyRun(SortTrs(s), k) == KeyRun(s, k)
  {
    SortTrsSorted(s);
    SortTrsPerm(s);
    SortTrsStable(s, k);
  }

  /** `Vec::dedup`: drops each element equal to the one kept just before it. */
  function Dedup<T(==)>(s: seq<T>): seq<T>
  {
    if s == [] then []
    else
      var r := Dedup(s[..|s| - 1]);
      if r != [] && r[|r| - 1] == s[|s| - 1] then r else r + [s[|s| - 1]]
  }

  lemma {:induction false} DedupElems<T>(s: seq<T>)
    ensures forall x :: x in Dedup(s) ==> x in s
    ensures forall x :: x in s ==> x in Dedup(s)
    ensures |Dedup(s)| <= |s|
    ensures s != [] ==> Dedup(s) != [] && Dedup(s)[|Dedup(s)| - 1] == s[|s| - 1]
    decreases |s|
  {
    if s != [] {
      var p := s[..|s| - 1];
      DedupElems(p);
      assert s == p + [s[|s| - 1]];
    }
  }

  /**
   * After `dedup` no two neighbours are equal, the same values are present,
   * and a sorted sequence stays sorted.
   */
  lemma {:induction false} DedupCorrect<W>(s: seq<Tr<W>>)
    ensures forall i :: 0 <= i < |Dedup(s)| - 1 ==> Dedup(s)[i] != Dedup(s)[i + 1]
    ensures forall x :: x in Dedup(s) ==> x in s
    ensures forall x :: x in s ==> x in Dedup(s)
    ensures |Dedup(s)| <= |s|
    ensures s != [] ==> Dedup(s) != [] && Dedup(s)[|Dedup(s)| - 1] == s[|s| - 1]
    ensures Sorted(s) ==> Sorted(Dedup(s))
    decreases |s|
  {
    DedupElems(s);
    if s != [] {
      var p := s[..|s| - 1];
      DedupCorrect(p);
      var r := Dedup(p);
      var x := s[|s| - 1];
      if Sorted(s) {
        assert Sorted(p);
        if !(r != [] && r[|r| - 1] == x) {
          forall i | 0 <= i < |r| ensures LessEq(r[i], x) {
            assert r[i] in r;
            assert r[i] in p;
            var m :| 0 <= m < |p| && p[m] == r[i];
            assert s[m] == r[i];
          }
        }
      }
    }
  }
}
