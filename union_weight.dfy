/**
 * `UnionWeight`: a weight that is a list of weights of an inner semiring,
 * kept sorted by the option's `compare`, with list union (a merge) as Plus,
 * the empty list as Zero, and the inner Times applied pairwise as Times.
 * Two elements that `compare` does not put in order are combined by the
 * option's `merge`.
 */
module UnionWeights {
  import opened Wrappers
  import opened Semirings

  /** `UnionWeightOption`: the order of the list and how two unordered elements combine. */
  datatype UnionOptions<!W> = UnionOptions(compare: (W, W) -> bool, merge: (W, W) -> Result<W>)

  /** Zero, the empty list: Plus takes it as its identity and Times as its annihilator. */
  function Zero<W>(): (r: seq<W>)
    ensures |r| == 0
  {
    []
  }

  /** One, the inner semiring's one alone: not Zero, and a right identity of Times (`TimesOne`). */
  function One<W>(sr: Semiring<W>): (r: seq<W>)
    ensures r != Zero() && |r| == 1 && r[0] == sr.one
  {
    [sr.one]
  }

  // ---------------------------------------------------------------------------
  // `push_back`.

  /**
   * `push_back(w, true)`: appended when it comes after the last element,
   * otherwise merged into the last element (a failed merge is an error).
   */
  function PushBackSorted<W>(list: seq<W>, w: W, o: UnionOptions<W>): (r: Result<seq<W>>)
    ensures r.Ok? ==> |r.value| == (if list != [] && !o.compare(list[|list| - 1], w) then |list| else |list| + 1)
    ensures r.Ok? && list != [] ==> r.value[..|list| - 1] == list[..|list| - 1]
  {
    if list == [] then Ok([w])
    else if o.compare(list[|list| - 1], w) then Ok(list + [w])
    else
      match o.merge(list[|list| - 1], w)
      case Ok(m) => Ok(list[..|list| - 1] + [m])
      case Err(e) => Err(e)
  }

  /**
   * `push_back(w, false)`: appended when it comes after the first element,
   * otherwise it takes the first place and the old first element goes to the end.
   */
  function PushBackUnsorted<W>(list: seq<W>, w: W, o: UnionOptions<W>): (r: seq<W>)
    ensures multiset(r) == multiset(list) + multiset{w}
  {
    if list == [] then [w]
    else if o.compare(list[0], w) then list + [w]
    else
      assert list == [list[0]] + list[1..];
      [w] + list[1..] + [list[0]]
  }

  /** Sorted pushes of `xs`, one after the other, stopping at the first error. */
  function PushAll<W>(r: Result<seq<W>>, xs: seq<W>, o: UnionOptions<W>): Result<seq<W>>
    decreases |xs|
  {
    if r.Err? || xs == [] then r else PushAll(PushBackSorted(r.value, xs[0], o), xs[1..], o)
  }

  lemma {:induction false} PushAllErr<W>(e: string, xs: seq<W>, o: UnionOptions<W>)
    ensures PushAll(Err(e), xs, o) == Err(e)
  {
  }

  lemma {:induction false} PushAllSnoc<W>(r: Result<seq<W>>, xs: seq<W>, x: W, o: UnionOptions<W>)
    ensures PushAll(r, xs + [x], o) ==
              (if PushAll(r, xs, o).Err? then PushAll(r, xs, o) else PushBackSorted(PushAll(r, xs, o).value, x, o))
    decreases |xs|
  {
    if r.Ok? && xs != [] {
      assert (xs + [x])[1..] == xs[1..] + [x];
      PushAllSnoc(PushBackSorted(r.value, xs[0], o), xs[1..], x, o);
    } else if r.Ok? {
      assert xs + [x] == [x];
    }
  }

  // ---------------------------------------------------------------------------
  // Plus.

  /** The order in which the merging loop of `plus_assign` takes the elements of the two lists. */
  function MergeOrder<W>(l1: seq<W>, l2: seq<W>, o: UnionOptions<W>): seq<W>
    decreases |l1| + |l2|
  {
    if l1 == [] then l2
    else if l2 == [] then l1
    else if o.compare(l1[0], l2[0]) then [l1[0]] + MergeOrder(l1[1..], l2, o)
    else [l2[0]] + MergeOrder(l1, l2[1..], o)
  }

  /**
   * `plus_assign`: Zero on either side gives the other argument; otherwise
   * the elements of both lists, in merge order, are pushed sorted onto an
   * empty list.
   */
  function Plus<W>(l1: seq<W>, l2: seq<W>, o: UnionOptions<W>): (r: Result<seq<W>>)
    ensures l1 == Zero() ==> r == Ok(l2)
    ensures l2 == Zero() ==> r == Ok(l1)
  {
    if l1 == [] then Ok(l2)
    else if l2 == [] then Ok(l1)
    else PushAll(Ok([]), MergeOrder(l1, l2, o), o)
  }

  /** `compare` is a strict total order on the weights. */
  ghost predicate StrictTotalOrder<W(!new)>(o: UnionOptions<W>)
  {
    && (forall a :: !o.compare(a, a))
    && (forall a, b, c :: o.compare(a, b) && o.compare(b, c) ==> o.compare(a, c))
    && (forall a, b :: a != b ==> o.compare(a, b) || o.compare(b, a))
  }

  /** Merging a weight with itself gives it back. */
  ghost predicate MergeIdempotent<W(!new)>(o: UnionOptions<W>)
  {
    forall a :: o.merge(a, a) == Ok(a)
  }

  /** Every element comes strictly before every later one. */
  ghost predicate StrictlySorted<W>(l: seq<W>, o: UnionOptions<W>)
  {
    forall i, j :: 0 <= i < j < |l| ==> o.compare(l[i], l[j])
  }

  /** No element comes strictly before an earlier one. */
  ghost predicate Sorted<W>(l: seq<W>, o: UnionOptions<W>)
  {
    forall i, j :: 0 <= i < j < |l| ==> !o.compare(l[j], l[i])
  }

  lemma {:induction false} MergeOrderElems<W>(l1: seq<W>, l2: seq<W>, o: UnionOptions<W>)
    ensures multiset(MergeOrder(l1, l2, o)) == multiset(l1) + multiset(l2)
    decreases |l1| + |l2|
  {
    if l1 != [] && l2 != [] {
      if o.compare(l1[0], l2[0]) {
        MergeOrderElems(l1[1..], l2, o);
        assert l1 == [l1[0]] + l1[1..];
        calc {
          multiset(MergeOrder(l1, l2, o));
          multiset([l1[0]] + MergeOrder(l1[1..], l2, o));
          multiset{l1[0]} + (multiset(l1[1..]) + multiset(l2));
          multiset(l1) + multiset(l2);
        }
      } else {
        MergeOrderElems(l1, l2[1..], o);
        assert l2 == [l2[0]] + l2[1..];
        calc {
          multiset(MergeOrder(l1, l2, o));
          multiset([l2[0]] + MergeOrder(l1, l2[1..], o));
          multiset{l2[0]} + (multiset(l1) + multiset(l2[1..]));
          multiset(l1) + multiset(l2);
        }
      }
    }
  }

  lemma SortedCons<W>(h: W, rest: seq<W>, o: UnionOptions<W>)
    requires Sorted(rest, o)
    requires forall x :: x in multiset(rest) ==> !o.compare(x, h)
    ensures Sorted([h] + rest, o)
  {
    var s := [h] + rest;
    forall i, j | 0 <= i < j < |s| ensures !o.compare(s[j], s[i]) {
      assert s[j] == rest[j - 1];
      assert rest[j - 1] in multiset(rest);
      if i > 0 { assert s[i] == rest[i - 1]; }
    }
  }

  /** Merging two strictly sorted lists gives a sorted list. */
  lemma {:induction false} MergeOrderSorted<W(!new)>(l1: seq<W>, l2: seq<W>, o: UnionOptions<W>)
    requires StrictTotalOrder(o)
    requires StrictlySorted(l1, o) && StrictlySorted(l2, o)
    ensures Sorted(MergeOrder(l1, l2, o), o)
    decreases |l1| + |l2|
  {
    if l1 == [] || l2 == [] {
      var l := if l1 == [] then l2 else l1;
      forall i, j | 0 <= i < j < |l| ensures !o.compare(l[j], l[i]) {
        assert o.compare(l[i], l[j]);
      }
    } else if o.compare(l1[0], l2[0]) {
      var rest := MergeOrder(l1[1..], l2, o);
      MergeOrderSorted(l1[1..], l2, o);
      MergeOrderElems(l1[1..], l2, o);
      forall x | x in multiset(rest) ensures !o.compare(x, l1[0]) {
        if x in multiset(l1[1..]) {
          var k :| 0 <= k < |l1[1..]| && l1[1..][k] == x;
          assert o.compare(l1[0], l1[k + 1]);
        } else {
          var k :| 0 <= k < |l2| && l2[k] == x;
          if k > 0 { assert o.compare(l2[0], l2[k]); }
        }
      }
      SortedCons(l1[0], rest, o);
    } else {
      var rest := MergeOrder(l1, l2[1..], o);
      MergeOrderSorted(l1, l2[1..], o);
      MergeOrderElems(l1, l2[1..], o);
      forall x | x in multiset(rest) ensures !o.compare(x, l2[0]) {
        if x in multiset(l2[1..]) {
          var k :| 0 <= k < |l2[1..]| && l2[1..][k] == x;
          assert o.compare(l2[0], l2[k + 1]);
        } else {
          var k :| 0 <= k < |l1| && l1[k] == x;
          if k > 0 { assert o.compare(l1[0], l1[k]); }
        }
      }
      SortedCons(l2[0], rest, o);
    }
  }

  /**
   * Sorted pushes of a sorted list onto a strictly sorted one whose last
   * element does not come after the first pushed: no merge fails, and the
   * result is strictly sorted with the elements of both, equal neighbours
   * merged into one.
   */
  lemma {:induction false} PushAllDedups<W(!new)>(acc: seq<W>, xs: seq<W>, o: UnionOptions<W>)
    requires StrictTotalOrder(o) && MergeIdempotent(o)
    requires StrictlySorted(acc, o) && Sorted(xs, o)
    requires acc != [] && xs != [] ==> !o.compare(xs[0], acc[|acc| - 1])
    ensures PushAll(Ok(acc), xs, o).Ok?
    ensures StrictlySorted(PushAll(Ok(acc), xs, o).value, o)
    ensures forall x :: x in PushAll(Ok(acc), xs, o).value <==> x in acc || x in xs
    decreases |xs|
  {
    if xs != [] {
      var x := xs[0];
      var next := PushBackSorted(acc, x, o);
      if acc == [] {
        assert next == Ok([x]);
      } else if o.compare(acc[|acc| - 1], x) {
        assert next == Ok(acc + [x]);
        forall i, j | 0 <= i < j < |acc + [x]| ensures o.compare((acc + [x])[i], (acc + [x])[j]) {
          if j == |acc| && i < |acc| - 1 {
            assert o.compare(acc[i], acc[|acc| - 1]);
          }
        }
      } else {
        assert acc[|acc| - 1] == x;
        assert acc[..|acc| - 1] + [x] == acc;
        assert next == Ok(acc);
      }
      var a2 := next.value;
      assert a2 != [] && a2[|a2| - 1] == x;
      assert Sorted(xs[1..], o);
      if xs[1..] != [] { assert !o.compare(xs[1], xs[0]); }
      PushAllDedups(a2, xs[1..], o);
      assert xs == [x] + xs[1..];
    }
  }

  /**
   * Plus of two strictly sorted lists is their union: it never fails, it is
   * strictly sorted, and it holds exactly the elements of either argument.
   */
  lemma PlusIsUnion<W(!new)>(l1: seq<W>, l2: seq<W>, o: UnionOptions<W>)
    requires StrictTotalOrder(o) && MergeIdempotent(o)
    requires StrictlySorted(l1, o) && StrictlySorted(l2, o)
    ensures Plus(l1, l2, o).Ok?
    ensures StrictlySorted(Plus(l1, l2, o).value, o)
    ensures forall x :: x in Plus(l1, l2, o).value <==> x in l1 || x in l2
  {
    if l1 != [] && l2 != [] {
      var m := MergeOrder(l1, l2, o);
      MergeOrderSorted(l1, l2, o);
      MergeOrderElems(l1, l2, o);
      PushAllDedups([], m, o);
      assert forall x :: x in m <==> x in multiset(m);
    }
  }

  /** Plus of strictly sorted lists is commutative: a strictly sorted list is determined by its elements. */
  lemma PlusCommutative<W(!new)>(l1: seq<W>, l2: seq<W>, o: UnionOptions<W>)
    requires StrictTotalOrder(o) && MergeIdempotent(o)
    requires StrictlySorted(l1, o) && StrictlySorted(l2, o)
    ensures Plus(l1, l2, o) == Plus(l2, l1, o)
  {
    PlusIsUnion(l1, l2, o);
    PlusIsUnion(l2, l1, o);
    StrictlySortedUnique(Plus(l1, l2, o).value, Plus(l2, l1, o).value, o);
  }

  lemma {:induction false} StrictlySortedUnique<W(!new)>(a: seq<W>, b: seq<W>, o: UnionOptions<W>)
    requires StrictTotalOrder(o)
    requires StrictlySorted(a, o) && StrictlySorted(b, o)
    requires forall x :: x in a <==> x in b
    ensures a == b
    decreases |a|
  {
    assert (a == []) == (b == []) by {
      if a != [] { assert a[0] in b; }
      if b != [] { assert b[0] in a; }
    }
    if a != [] {
      // The first elements are the least of the common elements.
      HeadLeast(b, a[0], o);
      HeadLeast(a, b[0], o);
      assert a[0] == b[0];
      forall x ensures x in a[1..] <==> x in b[1..] {
        if x in a[1..] {
          HeadLeast(a, x, o);
          TailHolds(a, x);
          TailHolds(b, x);
        }
        if x in b[1..] {
          HeadLeast(b, x, o);
          TailHolds(a, x);
          TailHolds(b, x);
        }
      }
      StrictlySortedUnique(a[1..], b[1..], o);
      assert a == [a[0]] + a[1..] && b == [b[0]] + b[1..];
    }
  }

  /** The first element of a strictly sorted list comes before every other one. */
  lemma HeadLeast<W>(a: seq<W>, x: W, o: UnionOptions<W>)
    requires StrictlySorted(a, o) && x in a
    ensures a[0] == x || o.compare(a[0], x)
    ensures x in a[1..] ==> o.compare(a[0], x)
  {
    var k :| 0 <= k < |a| && a[k] == x;
    if k > 0 { assert o.compare(a[0], a[k]); }
    if x in a[1..] {
      var m :| 0 <= m < |a[1..]| && a[1..][m] == x;
      assert o.compare(a[0], a[m + 1]);
    }
  }

  lemma TailHolds<W>(a: seq<W>, x: W)
    requires a != []
    ensures x in a <==> x == a[0] || x in a[1..]
  {
    assert a == [a[0]] + a[1..];
  }

  // ---------------------------------------------------------------------------
  // Times.

  /** The products of `w1` with each element of `l2`, in order. */
  function Products<W>(w1: W, l2: seq<W>, sr: Semiring<W>): (r: seq<W>)
    ensures |r| == |l2| && forall k :: 0 <= k < |l2| ==> r[k] == sr.times(w1, l2[k])
  {
    seq(|l2|, k requires 0 <= k < |l2| => sr.times(w1, l2[k]))
  }

  /**
   * The outer loop of `times_assign` from `acc`: for each element of `l1`,
   * its products with `l2` pushed sorted onto an empty list, then added to
   * `acc`; the first error ends it.
   */
  function TimesFrom<W>(acc: seq<W>, l1: seq<W>, l2: seq<W>, sr: Semiring<W>, o: UnionOptions<W>): Result<seq<W>>
    decreases |l1|
  {
    if l1 == [] then Ok(acc)
    else
      match PushAll(Ok([]), Products(l1[0], l2, sr), o)
      case Err(e) => Err(e)
      case Ok(row) =>
        match Plus(acc, row, o)
        case Err(e) => Err(e)
        case Ok(acc2) => TimesFrom(acc2, l1[1..], l2, sr, o)
  }

  /** `times_assign`: Zero on either side gives Zero; otherwise the sum of the rows of products. */
  function Times<W>(l1: seq<W>, l2: seq<W>, sr: Semiring<W>, o: UnionOptions<W>): (r: Result<seq<W>>)
    ensures l1 == Zero() || l2 == Zero() ==> r == Ok(Zero())
  {
    if l1 == [] || l2 == [] then Ok([]) else TimesFrom([], l1, l2, sr, o)
  }

  /**
   * One is a right identity of Times on strictly sorted lists, when it is
   * one of the inner semiring.
   */
  lemma TimesOne<W(!new)>(l: seq<W>, sr: Semiring<W>, o: UnionOptions<W>)
    requires StrictTotalOrder(o) && MergeIdempotent(o)
    requires forall w :: sr.times(w, sr.one) == w
    requires StrictlySorted(l, o)
    ensures Times(l, One(sr), sr, o) == Ok(l)
  {
    if l != [] {
      TimesOneFrom([], l, sr, o);
      assert [] + l == l;
    }
  }

  lemma {:induction false} TimesOneFrom<W(!new)>(acc: seq<W>, l: seq<W>, sr: Semiring<W>, o: UnionOptions<W>)
    requires StrictTotalOrder(o) && MergeIdempotent(o)
    requires forall w :: sr.times(w, sr.one) == w
    requires StrictlySorted(acc + l, o)
    ensures TimesFrom(acc, l, One(sr), sr, o) == Ok(acc + l)
    decreases |l|
  {
    if l == [] {
      assert acc + l == acc;
    } else {
      var x := l[0];
      assert Products(x, One(sr), sr) == [x];
      assert PushAll(Ok([]), [x], o) == Ok([x]);
      assert StrictlySorted(acc + [x], o) by {
        forall i, j | 0 <= i < j < |acc + [x]| ensures o.compare((acc + [x])[i], (acc + [x])[j]) {
          assert (acc + [x])[i] == (acc + l)[i] && (acc + [x])[j] == (acc + l)[j];
        }
      }
      PlusAppends(acc, x, o);
      assert TimesFrom(acc, l, One(sr), sr, o) == TimesFrom(acc + [x], l[1..], One(sr), sr, o);
      assert acc + l == (acc + [x]) + l[1..];
      TimesOneFrom(acc + [x], l[1..], sr, o);
    }
  }

  /** Adding a weight that comes after every element of a strictly sorted list appends it. */
  lemma PlusAppends<W(!new)>(acc: seq<W>, x: W, o: UnionOptions<W>)
    requires StrictTotalOrder(o) && MergeIdempotent(o)
    requires StrictlySorted(acc + [x], o)
    ensures Plus(acc, [x], o) == Ok(acc + [x])
  {
    assert StrictlySorted(acc, o) by {
      forall i, j | 0 <= i < j < |acc| ensures o.compare(acc[i], acc[j]) {
        assert (acc + [x])[i] == acc[i] && (acc + [x])[j] == acc[j];
      }
    }
    PlusIsUnion(acc, [x], o);
    StrictlySortedUnique(Plus(acc, [x], o).value, acc + [x], o);
  }

  // ---------------------------------------------------------------------------
  // Division.

  /** The quotients `div(w, v)` for `v` in `vs`, pushed sorted onto `acc`; the first error ends it. */
  function DividePush<W>(acc: Result<seq<W>>, vs: seq<W>, quot: W -> Result<W>, o: UnionOptions<W>): Result<seq<W>>
    decreases |vs|
  {
    if acc.Err? || vs == [] then acc
    else
      match quot(vs[0])
      case Err(e) => Err(e)
      case Ok(q) => DividePush(PushBackSorted(acc.value, q, o), vs[1..], quot, o)
  }

  function Reversed<W>(l: seq<W>): (r: seq<W>)
    ensures |r| == |l| && forall k :: 0 <= k < |l| ==> r[k] == l[|l| - 1 - k]
  {
    seq(|l|, k requires 0 <= k < |l| => l[|l| - 1 - k])
  }

  /**
   * The quotient once neither side is Zero: a single dividend is divided by
   * each divisor from the last to the first, several dividends are each
   * divided by a single divisor, and otherwise it is an error.
   */
  function DivideNonZero<W>(l1: seq<W>, l2: seq<W>, div: (W, W) -> Result<W>, o: UnionOptions<W>): Result<seq<W>>
  {
    if |l1| == 1 then DividePush(Ok([]), Reversed(l2), v => div(l1[0], v), o)
    else if |l2| == 1 then DividePush(Ok([]), l1, v => div(v, l2[0]), o)
    else Err("Expected at least of the two parameters to have a single element")
  }

  /**
   * `divide_assign` as written: a Zero side clears the dividend, but the
   * division then goes on with the cleared list.
   */
  function DivideAsWritten<W>(l1: seq<W>, l2: seq<W>, div: (W, W) -> Result<W>, o: UnionOptions<W>): (r: Result<seq<W>>)
    ensures l1 != Zero() && l2 != Zero() ==> r == Divide(l1, l2, div, o)
    ensures l2 == Zero() ==> r.Err?
    ensures l1 == Zero() && |l2| == 1 ==> r == Ok(Zero())
    ensures l1 == Zero() && |l2| != 1 ==> r.Err?
  {
    var self := if l1 == [] || l2 == [] then [] else l1;
    DivideNonZero(self, l2, div, o)
  }

  /** `divide_assign` with the Zero case returning Zero, as the clearing of the list intends. */
  function Divide<W>(l1: seq<W>, l2: seq<W>, div: (W, W) -> Result<W>, o: UnionOptions<W>): (r: Result<seq<W>>)
    ensures l1 == Zero() || l2 == Zero() ==> r == Ok(Zero())
    ensures l1 != Zero() && l2 != Zero() && |l1| != 1 && |l2| != 1 ==> r.Err?
  {
    if l1 == [] || l2 == [] then Ok([]) else DivideNonZero(l1, l2, div, o)
  }

  /** As written, dividing a one-element weight by Zero is an error rather than Zero. */
  lemma DivideByZeroAsWritten<W>(a: W, div: (W, W) -> Result<W>, o: UnionOptions<W>)
    ensures DivideAsWritten([a], Zero(), div, o).Err?
    ensures Divide([a], Zero(), div, o) == Ok(Zero())
  {
  }

  /** Divide undoes Times on one-element weights, when the inner division undoes the inner Times. */
  lemma DivideUndoesTimes<W>(a: W, b: W, sr: Semiring<W>, div: (W, W) -> Result<W>, o: UnionOptions<W>)
    requires div(sr.times(a, b), b) == Ok(a)
    ensures Times([a], [b], sr, o).Ok?
    ensures Divide(Times([a], [b], sr, o).value, [b], div, o) == Ok([a])
  {
    var t := sr.times(a, b);
    assert Products(a, [b], sr) == [t];
    assert PushAll(Ok([]), [t], o) == Ok([t]);
    assert TimesFrom([], [a], [b], sr, o) == TimesFrom([t], [], [b], sr, o);
    assert Reversed([b]) == [b];
    var quot := v => div(t, v);
    assert quot(b) == Ok(a);
    assert DividePush(Ok([]), [b], quot, o) == DividePush(Ok([a]), [], quot, o);
  }

  // ---------------------------------------------------------------------------
  // The weight object.

  class UnionWeight<W> {
    const opts: UnionOptions<W>
    var list: seq<W>

    /** `UnionWeight::new(list)`. */
    constructor (opts: UnionOptions<W>, list: seq<W>)
      ensures this.opts == opts && this.list == list
    {
      this.opts := opts;
      this.list := list;
    }

    /**
     * `push_back(w, sorted)`: the list grows as `PushBackSorted` or
     * `PushBackUnsorted` say; a failed merge is an error and leaves the list
     * as it was.
     */
    method PushBack(w: W, sorted: bool) returns (r: Result<()>)
      modifies this
      ensures sorted ==> r.Ok? == PushBackSorted(old(list), w, opts).Ok?
      ensures sorted && r.Ok? ==> list == PushBackSorted(old(list), w, opts).value
      ensures sorted && r.Err? ==> list == old(list) && PushBackSorted(old(list), w, opts) == Err(r.error)
      ensures !sorted ==> r.Ok? && list == PushBackUnsorted(old(list), w, opts)
    {
      r := Ok(());
      if |list| == 0 {
        list := list + [w];
      } else if sorted {
        var n := |list|;
        var back := list[n - 1];
        if opts.compare(back, w) {
          list := list + [w];
        } else {
          var m := opts.merge(back, w);
          if m.Err? {
            return Err(m.error);
          }
          list := list[n - 1 := m.value];
          assert list == old(list)[..n - 1] + [m.value];
        }
      } else {
        var first := list[0];
        if opts.compare(first, w) {
          list := list + [w];
        } else {
          list := list[0 := w] + [first];
          assert list == [w] + old(list)[1..] + [first];
        }
      }
    }

    /** Sorted pushes of `xs`, in order, stopping at the first error. */
    method PushAllSorted(xs: seq<W>) returns (r: Result<()>)
      modifies this
      ensures PushAll(Ok(old(list)), xs, opts).Ok? <==> r.Ok?
      ensures r.Ok? ==> list == PushAll(Ok(old(list)), xs, opts).value
      ensures r.Err? ==> PushAll(Ok(old(list)), xs, opts) == Err(r.error)
    {
      r := Ok(());
      for k := 0 to |xs|
        invariant r.Ok? && PushAll(Ok(old(list)), xs[..k], opts) == Ok(list)
      {
        PushAllSnoc(Ok(old(list)), xs[..k], xs[k], opts);
        assert xs[..k + 1] == xs[..k] + [xs[k]];
        r := PushBack(xs[k], true);
        if r.Err? {
          PushAllAppend(Ok(old(list)), xs[..k + 1], xs[k + 1..], opts);
          PushAllErr(r.error, xs[k + 1..], opts);
          assert xs[..k + 1] + xs[k + 1..] == xs;
          return;
        }
      }
      assert xs[..|xs|] == xs;
    }

    /**
     * `plus_assign(rhs)`: this weight becomes `Plus(list, rhs)`; on an error
     * it keeps its value.
     */
    method PlusAssign(rhs: seq<W>) returns (r: Result<()>)
      modifies this
      ensures Plus(old(list), rhs, opts).Ok? <==> r.Ok?
      ensures r.Ok? ==> list == Plus(old(list), rhs, opts).value
      ensures r.Err? ==> list == old(list) && Plus(old(list), rhs, opts) == Err(r.error)
    {
      r := Ok(());
      if |list| == 0 {
        list := rhs;
      } else if |rhs| == 0 {
      } else {
        var sum := new UnionWeight(opts, []);
        var n1 := |list|;
        var n2 := |rhs|;
        var i1 := 0;
        var i2 := 0;
        ghost var target := Plus(list, rhs, opts);
        assert list[0..] == list && rhs[0..] == rhs;
        while i1 < n1 && i2 < n2
          invariant 0 <= i1 <= n1 && 0 <= i2 <= n2
          invariant list == old(list) && fresh(sum)
          invariant PushAll(Ok(sum.list), MergeOrder(list[i1..], rhs[i2..], opts), opts) == target
        {
          var v1 := list[i1];
          var v2 := rhs[i2];
          ghost var before := sum.list;
          if opts.compare(v1, v2) {
            assert list[i1..][1..] == list[i1 + 1..];
            r := sum.PushBack(v1, true);
            if r.Err? {
              PushAllErr(r.error, MergeOrder(list[i1 + 1..], rhs[i2..], opts), opts);
              return;
            }
            i1 := i1 + 1;
          } else {
            assert rhs[i2..][1..] == rhs[i2 + 1..];
            r := sum.PushBack(v2, true);
            if r.Err? {
              PushAllErr(r.error, MergeOrder(list[i1..], rhs[i2 + 1..], opts), opts);
              return;
            }
            i2 := i2 + 1;
          }
        }
        assert MergeOrder(list[i1..], rhs[i2..], opts) == list[i1..] + rhs[i2..];
        ghost var before := sum.list;
        PushAllAppend(Ok(before), list[i1..], rhs[i2..], opts);
        r := sum.PushAllSorted(list[i1..]);
        if r.Err? {
          PushAllErr(r.error, rhs[i2..], opts);
          return;
        }
        r := sum.PushAllSorted(rhs[i2..]);
        if r.Err? { return; }
        list := sum.list;
      }
    }
    /**
     * `times_assign(rhs)`: this weight becomes `Times(list, rhs)`, built row
     * by row; on an error it keeps its value.
     */
    method TimesAssign(rhs: seq<W>, sr: Semiring<W>) returns (r: Result<()>)
      modifies this
      ensures Times(old(list), rhs, sr, opts).Ok? <==> r.Ok?
      ensures r.Ok? ==> list == Times(old(list), rhs, sr, opts).value
      ensures r.Err? ==> list == old(list) && Times(old(list), rhs, sr, opts) == Err(r.error)
    {
      r := Ok(());
      if |list| == 0 || |rhs| == 0 {
        list := [];
        return;
      }
      ghost var target := Times(list, rhs, sr, opts);
      var prod1 := new UnionWeight(opts, []);
      assert list[0..] == list;
      for i := 0 to |list|
        invariant list == old(list) && fresh(prod1) && r.Ok?
        invariant TimesFrom(prod1.list, list[i..], rhs, sr, opts) == target
      {
        assert list[i..][1..] == list[i + 1..];
        var row := ProductRow(opts, list[i], rhs, sr);
        if row.Err? {
          return Err(row.error);
        }
        r := prod1.PlusAssign(row.value);
        if r.Err? {
          return;
        }
      }
      list := prod1.list;
    }

    /**
     * `divide_assign(rhs)`, returning Zero when either side is Zero: this
     * weight becomes `Divide(list, rhs)`; on an error it keeps its value.
     */
    method DivideAssign(rhs: seq<W>, div: (W, W) -> Result<W>) returns (r: Result<()>)
      modifies this
      ensures Divide(old(list), rhs, div, opts).Ok? <==> r.Ok?
      ensures r.Ok? ==> list == Divide(old(list), rhs, div, opts).value
      ensures r.Err? ==> list == old(list) && Divide(old(list), rhs, div, opts) == Err(r.error)
    {
      r := Ok(());
      if |list| == 0 || |rhs| == 0 {
        list := [];
        return;
      }
      var quot := new UnionWeight(opts, []);
      if |list| == 1 {
        var w := list[0];
        r := quot.DivideAll(Reversed(rhs), v => div(w, v));
      } else if |rhs| == 1 {
        var v := rhs[0];
        r := quot.DivideAll(list, u => div(u, v));
      } else {
        return Err("Expected at least of the two parameters to have a single element");
      }
      if r.Ok? {
        list := quot.list;
      }
    }

    /** Pushes, sorted, the quotient `quot(v)` of each `v` of `vs` in turn; the first error ends it. */
    method DivideAll(vs: seq<W>, quot: W -> Result<W>) returns (r: Result<()>)
      modifies this
      ensures DividePush(Ok(old(list)), vs, quot, opts).Ok? <==> r.Ok?
      ensures r.Ok? ==> list == DividePush(Ok(old(list)), vs, quot, opts).value
      ensures r.Err? ==> DividePush(Ok(old(list)), vs, quot, opts) == Err(r.error)
    {
      r := Ok(());
      ghost var target := DividePush(Ok(list), vs, quot, opts);
      assert vs[0..] == vs;
      for k := 0 to |vs|
        invariant r.Ok? && DividePush(Ok(list), vs[k..], quot, opts) == target
      {
        assert vs[k..][1..] == vs[k + 1..];
        var q := quot(vs[k]);
        if q.Err? {
          return Err(q.error);
        }
        r := PushBack(q.value, true);
        if r.Err? {
          DividePushErr(r.error, vs[k + 1..], quot, opts);
          return;
        }
      }
    }
  }

  /** One row of `times_assign`: the products of `w1` with each element of `rhs`, pushed sorted. */
  method ProductRow<W>(opts: UnionOptions<W>, w1: W, rhs: seq<W>, sr: Semiring<W>) returns (r: Result<seq<W>>)
    ensures r == PushAll(Ok([]), Products(w1, rhs, sr), opts)
  {
    var prod2 := new UnionWeight(opts, []);
    var pr := prod2.PushAllSorted(Products(w1, rhs, sr));
    if pr.Err? {
      return Err(pr.error);
    }
    r := Ok(prod2.list);
  }

  lemma {:induction false} DividePushErr<W>(e: string, vs: seq<W>, quot: W -> Result<W>, o: UnionOptions<W>)
    ensures DividePush(Err(e), vs, quot, o) == Err(e)
  {
  }

  lemma {:induction false} PushAllAppend<W>(r: Result<seq<W>>, xs: seq<W>, ys: seq<W>, o: UnionOptions<W>)
    ensures PushAll(r, xs + ys, o) == PushAll(PushAll(r, xs, o), ys, o)
    decreases |xs|
  {
    if r.Err? {
      PushAllErr(r.error, xs + ys, o);
      PushAllErr(r.error, xs, o);
      PushAllErr(r.error, ys, o);
    } else if xs == [] {
      assert xs + ys == ys;
    } else {
      assert (xs + ys)[1..] == xs[1..] + ys;
      PushAllAppend(PushBackSorted(r.value, xs[0], o), xs[1..], ys, o);
    }
  }
}
