/**
 * `IntervalSet`: a set of naturals kept as a vector of half-open intervals
 * [begin, end), with a point count that `normalize` fills in. Normalizing
 * sorts the intervals and merges overlapping and adjacent ones.
 */
module IntervalSets {
  import opened Wrappers
  import TC = TrCompare

  /** `IntInterval`: the half-open interval [begin, end). */
  datatype IntInterval = IntInterval(begin: nat, end: nat)

  /** `Ord for IntInterval`: by `begin` ascending, then by `end` descending. */
  function Cmp(a: IntInterval, b: IntInterval): TC.Ordering
  {
    if a.begin < b.begin then TC.Less
    else if a.begin > b.begin then TC.Greater
    else if a.end > b.end then TC.Less
    else if a.end < b.end then TC.Greater
    else TC.Equal
  }

  predicate IvLess(a: IntInterval, b: IntInterval)
  {
    Cmp(a, b) == TC.Less
  }

  predicate IvLessEq(a: IntInterval, b: IntInterval)
  {
    Cmp(a, b) != TC.Greater
  }

  /** The order is total and antisymmetric, with ties only between equal intervals, and transitive. */
  lemma CmpIsOrder(a: IntInterval, b: IntInterval, c: IntInterval)
    ensures Cmp(a, b) == TC.Equal <==> a == b
    ensures Cmp(a, b) == TC.Less <==> Cmp(b, a) == TC.Greater
    ensures IvLessEq(a, b) && IvLessEq(b, c) ==> IvLessEq(a, c)
    ensures IvLessEq(a, b) ==> a.begin <= b.begin
  {
  }

  /** The order's unit tests: [1,4) < [2,3), [1,4) = [1,4), [3,4) > [2,3), [1,4) < [1,3), [1,4) > [1,5). */
  lemma CmpExamples()
    ensures Cmp(IntInterval(1, 4), IntInterval(2, 3)) == TC.Less
    ensures Cmp(IntInterval(1, 4), IntInterval(1, 4)) == TC.Equal
    ensures Cmp(IntInterval(3, 4), IntInterval(2, 3)) == TC.Greater
    ensures Cmp(IntInterval(1, 4), IntInterval(1, 3)) == TC.Less
    ensures Cmp(IntInterval(1, 4), IntInterval(1, 5)) == TC.Greater
  {
  }

  // ---------------------------------------------------------------------------
  // `Vec::sort` on intervals, written as an insertion sort.

  predicate SortedIv(s: seq<IntInterval>)
  {
    forall i, j :: 0 <= i < j < |s| ==> IvLessEq(s[i], s[j])
  }

  function InsertIv(x: IntInterval, s: seq<IntInterval>): seq<IntInterval>
  {
    if s == [] then [x]
    else if Cmp(s[0], x) == TC.Greater then [x] + s
    else [s[0]] + InsertIv(x, s[1..])
  }

  function SortIv(s: seq<IntInterval>): seq<IntInterval>
  {
    if s == [] then [] else InsertIv(s[|s| - 1], SortIv(s[..|s| - 1]))
  }

  lemma {:induction false} InsertIvPerm(x: IntInterval, s: seq<IntInterval>)
    ensures multiset(InsertIv(x, s)) == multiset(s) + multiset{x}
    decreases |s|
  {
    if s != [] && Cmp(s[0], x) != TC.Greater {
      InsertIvPerm(x, s[1..]);
      assert s == [s[0]] + s[1..];
    }
  }

  lemma {:induction false} InsertIvSorted(x: IntInterval, s: seq<IntInterval>)
    requires SortedIv(s)
    ensures SortedIv(InsertIv(x, s))
    decreases |s|
  {
    if s == [] {
    } else if Cmp(s[0], x) == TC.Greater {
      forall i, j | 0 <= i < j < |[x] + s| ensures IvLessEq(([x] + s)[i], ([x] + s)[j]) {
        if i == 0 {
          CmpIsOrder(x, s[0], s[j - 1]);
        } else {
          assert ([x] + s)[i] == s[i - 1] && ([x] + s)[j] == s[j - 1];
        }
      }
    } else {
      InsertIvSorted(x, s[1..]);
      InsertIvPerm(x, s[1..]);
      var t := InsertIv(x, s[1..]);
      forall j | 0 <= j < |t| ensures IvLessEq(s[0], t[j]) {
        assert t[j] in multiset(t);
        if t[j] != x {
          assert t[j] in multiset(s[1..]);
          var m :| 0 <= m < |s[1..]| && s[1..][m] == t[j];
          assert s[m + 1] == t[j];
        }
      }
      forall i, j | 0 <= i < j < |[s[0]] + t| ensures IvLessEq(([s[0]] + t)[i], ([s[0]] + t)[j]) {
        if i > 0 { assert ([s[0]] + t)[i] == t[i - 1] && ([s[0]] + t)[j] == t[j - 1]; }
      }
    }
  }

  /** The sort orders the intervals and keeps each as often as before. */
  lemma {:induction false} SortIvCorrect(s: seq<IntInterval>)
    ensures SortedIv(SortIv(s))
    ensures multiset(SortIv(s)) == multiset(s)
    decreases |s|
  {
    if s != [] {
      var p := s[..|s| - 1];
      SortIvCorrect(p);
      InsertIvSorted(s[|s| - 1], SortIv(p));
      InsertIvPerm(s[|s| - 1], SortIv(p));
      assert s == p + [s[|s| - 1]];
    }
  }

  // ---------------------------------------------------------------------------
  // The points of a list of intervals.

  predicate Contains(iv: IntInterval, v: nat)
  {
    iv.begin <= v < iv.end
  }

  /** Some interval of `s` holds `v`. */
  predicate Covers(s: seq<IntInterval>, v: nat)
  {
    exists k :: 0 <= k < |s| && Contains(s[k], v)
  }

  lemma CoversConcat(a: seq<IntInterval>, b: seq<IntInterval>, v: nat)
    ensures Covers(a + b, v) <==> Covers(a, v) || Covers(b, v)
  {
    if Covers(a + b, v) {
      var k :| 0 <= k < |a + b| && Contains((a + b)[k], v);
      if k >= |a| { assert b[k - |a|] == (a + b)[k]; }
    }
    if Covers(b, v) {
      var k :| 0 <= k < |b| && Contains(b[k], v);
      assert (a + b)[|a| + k] == b[k];
    }
    if Covers(a, v) {
      var k :| 0 <= k < |a| && Contains(a[k], v);
      assert (a + b)[k] == a[k];
    }
  }

  /** Two lists holding the same intervals (in any order) cover the same points. */
  lemma CoversPerm(a: seq<IntInterval>, b: seq<IntInterval>, v: nat)
    requires multiset(a) == multiset(b)
    ensures Covers(a, v) <==> Covers(b, v)
  {
    if Covers(a, v) {
      var k :| 0 <= k < |a| && Contains(a[k], v);
      assert a[k] in multiset(b);
      var m :| 0 <= m < |b| && b[m] == a[k];
    }
    if Covers(b, v) {
      var k :| 0 <= k < |b| && Contains(b[k], v);
      assert b[k] in multiset(a);
      var m :| 0 <= m < |a| && a[m] == b[k];
    }
  }

  /** Total length of the intervals: the point count of a normalized list. */
  function SumLen(s: seq<IntInterval>): nat
  {
    if s == [] then 0
    else SumLen(s[..|s| - 1]) + (if s[|s| - 1].end >= s[|s| - 1].begin then s[|s| - 1].end - s[|s| - 1].begin else 0)
  }

  /**
   * A normalized list: every interval non-empty, and each ends strictly
   * before any later one begins (so they are sorted, disjoint and not
   * adjacent).
   */
  predicate Normalized(s: seq<IntInterval>)
  {
    && (forall k :: 0 <= k < |s| ==> s[k].begin < s[k].end)
    && (forall i, j :: 0 <= i < j < |s| ==> s[i].end < s[j].begin)
  }

  // ---------------------------------------------------------------------------
  // `retain` with the indexes to keep.

  /** The intervals among the first `m` of `a` whose indexes are in `keep`, in order. */
  function Retained(a: seq<IntInterval>, keep: set<nat>, m: nat): seq<IntInterval>
    requires m <= |a|
  {
    if m == 0 then [] else Retained(a, keep, m - 1) + (if m - 1 in keep then [a[m - 1]] else [])
  }

  lemma {:induction false} RetainedFrame(a: seq<IntInterval>, keep: set<nat>, a': seq<IntInterval>, keep': set<nat>, m: nat)
    requires m <= |a| && m <= |a'|
    requires forall k :: 0 <= k < m ==> a[k] == a'[k] && (k in keep <==> k in keep')
    ensures Retained(a, keep, m) == Retained(a', keep', m)
    decreases m
  {
    if m > 0 {
      RetainedFrame(a, keep, a', keep', m - 1);
    }
  }

  lemma {:induction false} RetainedSkip(a: seq<IntInterval>, keep: set<nat>, m: nat, m': nat)
    requires m <= m' <= |a|
    requires forall k :: m <= k < m' ==> k !in keep
    ensures Retained(a, keep, m') == Retained(a, keep, m)
    decreases m' - m
  {
    if m < m' {
      RetainedSkip(a, keep, m, m' - 1);
    }
  }

  // ---------------------------------------------------------------------------
  // `member` through `lower_bound`.

  /** `lower_bound`: the first index whose interval is not below `key` (all of them below: the length). */
  function LowerBound(s: seq<IntInterval>, key: IntInterval): (lb: nat)
    ensures lb <= |s|
    ensures forall k :: 0 <= k < lb ==> IvLess(s[k], key)
    ensures lb < |s| ==> !IvLess(s[lb], key)
  {
    if s == [] || !IvLess(s[0], key) then 0 else 1 + LowerBound(s[1..], key)
  }

  // ---------------------------------------------------------------------------
  // The normalize loop as written.

  /**
   * One pass of the outer loop of `normalize` as written, from index `i`
   * over the sorted intervals `a`: an empty interval leaves `i` as it is (the
   * `continue` skips the increment); otherwise the following intervals that
   * start no later than the current end are merged in and `i` moves past
   * them.
   */
  function NormalizePassAsWritten(a: seq<IntInterval>, i: nat): (next: nat)
    requires i < |a|
  {
    if a[i].begin == a[i].end then i
    else MergeEnd(a, i, a[i].end, i + 1)
  }

  /** Where the inner loop stops: the index of the first interval starting after `end`, or the length. */
  function MergeEnd(a: seq<IntInterval>, ci: nat, end: nat, j: nat): nat
    requires j <= |a|
    decreases |a| - j
  {
    if j == |a| || a[j].begin > end then j
    else MergeEnd(a, ci, if a[j].end > end then a[j].end else end, j + 1)
  }

  /**
   * The as-written loop makes no progress on the set holding only the empty
   * interval [3, 3): the pass from index 0 returns index 0, so `normalize`
   * never returns.
   */
  lemma NormalizeAsWrittenStuck()
    ensures NormalizePassAsWritten([IntInterval(3, 3)], 0) == 0
  {
  }

  /**
   * The inner loop of `normalize`: the interval at `ci` swallows the
   * following intervals that start no later than its end, `i` counting the
   * swallowed ones. Afterwards it covers exactly the points of
   * `s[ci..i + 1]`, and the next interval, if any, starts after its end.
   */
  method MergeRun(a: seq<IntInterval>, ghost s: seq<IntInterval>, ci: nat) returns (a': seq<IntInterval>, i: nat)
    requires |a| == |s| && SortedIv(s) && ci < |a|
    requires forall k :: ci <= k < |a| ==> a[k] == s[k]
    requires s[ci].begin < s[ci].end
    ensures ci <= i < |a| && |a'| == |a|
    ensures a'[ci].begin == s[ci].begin && s[ci].begin < a'[ci].end
    ensures forall k :: k != ci && 0 <= k < |a| ==> a'[k] == a[k]
    ensures forall v :: Contains(a'[ci], v) <==> Covers(s[ci..i + 1], v)
    ensures i + 1 < |a| ==> s[i + 1].begin > a'[ci].end
  {
    a', i := a, ci;
    var n := |a|;
    assert forall v :: Contains(a'[ci], v) <==> Covers(s[ci..ci + 1], v) by {
      forall v ensures Contains(a'[ci], v) <==> Covers(s[ci..ci + 1], v) {
        assert s[ci..ci + 1][0] == s[ci];
      }
    }
    for j := ci + 1 to n
      invariant i == j - 1
      invariant |a'| == n && a'[ci].begin == s[ci].begin && s[ci].begin < a'[ci].end
      invariant forall k :: k != ci && 0 <= k < n ==> a'[k] == a[k]
      invariant forall v :: Contains(a'[ci], v) <==> Covers(s[ci..j], v)
    {
      if a'[j].begin > a'[ci].end {
        // No overlap between the two intervals.
        return;
      }
      CmpIsOrder(s[ci], s[j], s[j]);
      assert a'[j] == s[j];
      ghost var prev := a'[ci];
      if a'[j].end > a'[ci].end {
        a' := a'[ci := a'[ci].(end := a'[j].end)];
      }
      CoversGrow(s, ci, j, prev, a'[ci]);
      i := i + 1;
    }
  }

  /** One step of the inner loop keeps "the current interval covers exactly `s[ci..j]`". */
  lemma CoversGrow(s: seq<IntInterval>, ci: nat, j: nat, prev: IntInterval, next: IntInterval)
    requires ci < j < |s|
    requires forall v :: Contains(prev, v) <==> Covers(s[ci..j], v)
    requires prev.begin <= s[j].begin <= prev.end
    requires next == (if s[j].end > prev.end then prev.(end := s[j].end) else prev)
    ensures forall v :: Contains(next, v) <==> Covers(s[ci..j + 1], v)
  {
    assert s[ci..j + 1] == s[ci..j] + [s[j]];
    forall v ensures Contains(next, v) <==> Covers(s[ci..j + 1], v) {
      CoversConcat(s[ci..j], [s[j]], v);
      CoversOne(s[j], v);
    }
  }

  lemma CoversOne(x: IntInterval, v: nat)
    ensures Covers([x], v) <==> Contains(x, v)
  {
    if Contains(x, v) { assert [x][0] == x; }
  }

  /** The interval kept at `ci`, after swallowing up to `j`, extends the retained output. */
  lemma RetainedJoin(a0: seq<IntInterval>, keep: set<nat>, a: seq<IntInterval>, ci: nat, j: nat)
    requires ci < j <= |a| == |a0|
    requires forall k :: k in keep ==> k < ci
    requires forall k :: k != ci && 0 <= k < |a| ==> a[k] == a0[k]
    ensures Retained(a, keep + {ci}, j) == Retained(a0, keep, ci) + [a[ci]]
  {
    RetainedFrame(a0, keep, a, keep + {ci}, ci);
    RetainedSkip(a, keep + {ci}, ci + 1, j);
  }

  /** The points of the output grow by those of the kept interval. */
  lemma CoversJoin(out: seq<IntInterval>, x: IntInterval, s: seq<IntInterval>, ci: nat, j: nat)
    requires ci < j <= |s|
    requires forall v :: Covers(out, v) <==> Covers(s[..ci], v)
    requires forall v :: Contains(x, v) <==> Covers(s[ci..j], v)
    ensures forall v :: Covers(out + [x], v) <==> Covers(s[..j], v)
  {
    assert s[..j] == s[..ci] + s[ci..j];
    forall v ensures Covers(out + [x], v) <==> Covers(s[..j], v) {
      CoversConcat(out, [x], v);
      CoversConcat(s[..ci], s[ci..j], v);
      CoversOne(x, v);
    }
  }

  lemma SumLenSnoc(out: seq<IntInterval>, x: IntInterval)
    requires x.begin <= x.end
    ensures SumLen(out + [x]) == SumLen(out) + (x.end - x.begin)
  {
    assert (out + [x])[..|out|] == out;
  }

  /** An empty interval adds no point. */
  lemma CoversSkip(out: seq<IntInterval>, s: seq<IntInterval>, i: nat)
    requires i < |s| && s[i].begin == s[i].end
    requires forall v :: Covers(out, v) <==> Covers(s[..i], v)
    ensures forall v :: Covers(out, v) <==> Covers(s[..i + 1], v)
  {
    assert s[..i + 1] == s[..i] + [s[i]];
    forall v ensures Covers(out, v) <==> Covers(s[..i + 1], v) {
      CoversConcat(s[..i], [s[i]], v);
      CoversOne(s[i], v);
    }
  }

  /**
   * The state of the merging loop of `normalize` over the sorted intervals
   * `s` after index `i`: the intervals from `i` on are untouched, keeping
   * the indexes `keep` gives `out`, a normalized list covering the points of
   * `s[..i]` with total length `cnt`, and the next interval starts after
   * the last kept one ends.
   */
  ghost predicate MergeInv(s: seq<IntInterval>, a: seq<IntInterval>, keep: set<nat>, i: nat, out: seq<IntInterval>, cnt: nat)
  {
    && i <= |s| == |a|
    && (forall k :: i <= k < |s| ==> a[k] == s[k])
    && (forall k :: k in keep ==> k < i)
    && Retained(a, keep, i) == out
    && Normalized(out)
    && (forall v :: Covers(out, v) <==> Covers(s[..i], v))
    && cnt == SumLen(out)
    && (i < |s| && out != [] ==> out[|out| - 1].end < s[i].begin)
  }

  /** Skipping an empty interval keeps the loop state. */
  lemma SkipStep(s: seq<IntInterval>, a: seq<IntInterval>, keep: set<nat>, i: nat, out: seq<IntInterval>, cnt: nat)
    requires SortedIv(s) && MergeInv(s, a, keep, i, out, cnt)
    requires i < |s| && a[i].begin == a[i].end
    ensures MergeInv(s, a, keep, i + 1, out, cnt)
  {
    CoversSkip(out, s, i);
    if i + 1 < |s| { CmpIsOrder(s[i], s[i + 1], s[i + 1]); }
    RetainedSkip(a, keep, i, i + 1);
  }

  /** Keeping the interval at `ci`, extended over `s[ci..j]`, keeps the loop state. */
  lemma JoinStep(s: seq<IntInterval>, a0: seq<IntInterval>, keep: set<nat>, ci: nat, out: seq<IntInterval>, cnt: nat,
                 a: seq<IntInterval>, j: nat)
    requires MergeInv(s, a0, keep, ci, out, cnt)
    requires ci < j <= |a| == |a0|
    requires a[ci].begin == s[ci].begin && s[ci].begin < a[ci].end
    requires forall k :: k != ci && 0 <= k < |a| ==> a[k] == a0[k]
    requires forall v :: Contains(a[ci], v) <==> Covers(s[ci..j], v)
    requires j < |a| ==> s[j].begin > a[ci].end
    ensures MergeInv(s, a, keep + {ci}, j, out + [a[ci]], cnt + (a[ci].end - a[ci].begin))
  {
    JoinIndexes(s, a0, keep, a, ci, j);
    JoinOutput(s, out, a[ci], ci, j);
  }

  /** The indexes half of `JoinStep`: the untouched suffix and the retained output. */
  lemma JoinIndexes(s: seq<IntInterval>, a0: seq<IntInterval>, keep: set<nat>, a: seq<IntInterval>, ci: nat, j: nat)
    requires ci < j <= |a| == |a0| == |s|
    requires forall k :: ci <= k < |s| ==> a0[k] == s[k]
    requires forall k :: k in keep ==> k < ci
    requires forall k :: k != ci && 0 <= k < |a| ==> a[k] == a0[k]
    ensures forall k :: j <= k < |s| ==> a[k] == s[k]
    ensures forall k :: k in keep + {ci} ==> k < j
    ensures Retained(a, keep + {ci}, j) == Retained(a0, keep, ci) + [a[ci]]
  {
    RetainedJoin(a0, keep, a, ci, j);
  }

  /** The output half of `JoinStep`: order, points and length of the output. */
  lemma JoinOutput(s: seq<IntInterval>, out: seq<IntInterval>, x: IntInterval, ci: nat, j: nat)
    requires ci < j <= |s|
    requires Normalized(out) && x.begin < x.end
    requires out != [] ==> out[|out| - 1].end < x.begin
    requires forall v :: Covers(out, v) <==> Covers(s[..ci], v)
    requires forall v :: Contains(x, v) <==> Covers(s[ci..j], v)
    ensures Normalized(out + [x])
    ensures forall v :: Covers(out + [x], v) <==> Covers(s[..j], v)
    ensures SumLen(out + [x]) == SumLen(out) + (x.end - x.begin)
  {
    CoversJoin(out, x, s, ci, j);
    SumLenSnoc(out, x);
    NormalizedSnoc(out, x);
  }

  /**
   * One pass of the outer loop of `normalize` from index `i`: an empty
   * interval is skipped; otherwise the interval at `i` is kept, extended over
   * the intervals it swallows, and its length counted.
   */
  method MergePass(ghost s: seq<IntInterval>, a: seq<IntInterval>, keep: set<nat>, i: nat, cnt: nat, ghost out: seq<IntInterval>)
    returns (a': seq<IntInterval>, keep': set<nat>, i': nat, cnt': nat, ghost out': seq<IntInterval>)
    requires SortedIv(s) && (forall k :: 0 <= k < |s| ==> s[k].begin <= s[k].end)
    requires MergeInv(s, a, keep, i, out, cnt) && i < |s|
    ensures MergeInv(s, a', keep', i', out', cnt') && i < i'
  {
    if a[i].begin == a[i].end {
      // Empty interval: skipped, and not kept.
      SkipStep(s, a, keep, i, out, cnt);
      return a, keep, i + 1, cnt, out;
    }
    var ci := i;
    a', i' := MergeRun(a, s, ci);
    JoinStep(s, a, keep, ci, out, cnt, a', i' + 1);
    cnt' := cnt + (a'[ci].end - a'[ci].begin);
    keep' := keep + {ci};
    out' := out + [a'[ci]];
    i' := i' + 1;
  }

  /**
   * The merging loop of `normalize` over the sorted intervals `s`: each
   * non-empty interval not swallowed by an earlier one is kept, extended
   * over the intervals it swallows, and its length counted. Keeping the
   * indexes `keep` of `a` gives `out`, a normalized list covering the
   * points of `s`, whose total length is `cnt`.
   */
  method MergeSorted(s: seq<IntInterval>) returns (a: seq<IntInterval>, keep: set<nat>, cnt: nat, ghost out: seq<IntInterval>)
    requires SortedIv(s)
    requires forall k :: 0 <= k < |s| ==> s[k].begin <= s[k].end
    ensures |a| == |s| && Retained(a, keep, |s|) == out
    ensures Normalized(out)
    ensures forall v :: Covers(out, v) <==> Covers(s, v)
    ensures cnt == SumLen(out)
  {
    a := s;
    var n := |a|;
    cnt := 0;
    keep := {};
    out := [];
    var i := 0;
    MergeInit(s);
    while i < n
      invariant MergeInv(s, a, keep, i, out, cnt)
      decreases n - i
    {
      a, keep, i, cnt, out := MergePass(s, a, keep, i, cnt, out);
    }
    MergeDone(s, a, keep, out, cnt);
  }

  lemma MergeInit(s: seq<IntInterval>)
    ensures MergeInv(s, s, {}, 0, [], 0)
  {
    assert Retained(s, {}, 0) == [];
    assert forall v :: !Covers(s[..0], v);
  }

  lemma MergeDone(s: seq<IntInterval>, a: seq<IntInterval>, keep: set<nat>, out: seq<IntInterval>, cnt: nat)
    requires MergeInv(s, a, keep, |s|, out, cnt)
    ensures |a| == |s| && Retained(a, keep, |s|) == out
    ensures Normalized(out)
    ensures forall v :: Covers(out, v) <==> Covers(s, v)
    ensures cnt == SumLen(out)
  {
    assert s[..|s|] == s;
  }

  lemma NormalizedSnoc(out: seq<IntInterval>, x: IntInterval)
    requires Normalized(out) && x.begin < x.end
    requires out != [] ==> out[|out| - 1].end < x.begin
    ensures Normalized(out + [x])
  {
  }

  class IntervalSet {
    var intervals: seq<IntInterval>
    var count: Option<nat>

    /** `IntervalSet::default()`: no intervals, no count. */
    constructor ()
      ensures intervals == [] && count == None
    {
      intervals := [];
      count := None;
    }

    function Len(): nat
      reads this
    {
      |intervals|
    }

    function IsEmpty(): bool
      reads this
    {
      intervals == []
    }

    /** `count`: the number of points `normalize` last recorded, `None` before that. */
    function Count(): (r: Option<nat>)
      reads this
      ensures r == count
    {
      count
    }

    method Push(iv: IntInterval)
      modifies this
      ensures intervals == old(intervals) + [iv] && count == old(count)
    {
      intervals := intervals + [iv];
    }

    method Clear()
      modifies this
      ensures intervals == [] && count == None
    {
      intervals := [];
      count := None;
    }

    /**
     * `union`: appends the other set's intervals, which may leave the set
     * unnormalized; the count is left as it was.
     */
    method Union(other: seq<IntInterval>)
      modifies this
      ensures intervals == old(intervals) + other && count == old(count)
    {
      intervals := intervals + other;
    }

    /**
     * `member`: the interval just before the lower bound of [value, value)
     * must reach past `value`. Meaningful on a normalized set.
     */
    function Member(value: nat): (b: bool)
      reads this
      ensures b ==> Covers(intervals, value)
    {
      var lb := LowerBound(intervals, IntInterval(value, value));
      lb > 0 && intervals[lb - 1].end > value
    }

    /** `singleton`: exactly one interval, of length one, so the set covers exactly one point. */
    function Singleton(): (b: bool)
      reads this
      ensures b ==> |intervals| == 1 && forall v :: Covers(intervals, v) <==> v == intervals[0].begin
    {
      |intervals| == 1 && intervals[0].begin + 1 == intervals[0].end
    }

    /** On a normalized set, `member` is exactly membership in one of the intervals. */
    lemma MemberCorrect(value: nat)
      requires Normalized(intervals)
      ensures Member(value) <==> Covers(intervals, value)
    {
      var s := intervals;
      var key := IntInterval(value, value);
      var lb := LowerBound(s, key);
      forall k | lb <= k < |s| ensures s[k].begin > value {
        if k > lb {
          assert s[lb].end < s[k].begin;
        }
      }
      forall k | 0 <= k < lb - 1 ensures s[k].end <= value {
        assert IvLess(s[lb - 1], key);
        assert s[k].end < s[lb - 1].begin;
      }
      if lb > 0 && s[lb - 1].end > value {
        assert Contains(s[lb - 1], value);
      }
    }

    /** On a normalized set, `singleton` holds exactly when the set has a single point. */
    lemma SingletonCorrect(p: nat)
      requires Normalized(intervals)
      ensures Singleton() ==> forall v :: Covers(intervals, v) <==> v == intervals[0].begin
      ensures (forall v :: Covers(intervals, v) <==> v == p) ==> Singleton()
    {
      var s := intervals;
      if Singleton() {
        forall v ensures Covers(s, v) <==> v == s[0].begin {
          if v == s[0].begin { assert Contains(s[0], v); }
        }
      }
      if forall v :: Covers(s, v) <==> v == p {
        assert Covers(s, p);
        if |s| >= 2 {
          assert Contains(s[0], s[0].begin) && Contains(s[1], s[1].begin);
          assert Covers(s, s[0].begin) && Covers(s, s[1].begin);
          assert false;
        } else if s[0].begin + 1 != s[0].end {
          assert Contains(s[0], s[0].begin) && Contains(s[0], s[0].begin + 1);
          assert Covers(s, s[0].begin) && Covers(s, s[0].begin + 1);
          assert false;
        }
      }
    }

    /**
     * `normalize`: sorts, merges overlapping and adjacent intervals, drops
     * empty ones, and sets the count. The result is normalized, covers the
     * same points as before, and the count is its total length. An empty
     * interval is skipped over (see `NormalizeAsWrittenStuck` for the
     * source's loop).
     */
    method Normalize()
      requires forall k :: 0 <= k < |intervals| ==> intervals[k].begin <= intervals[k].end
      modifies this
      ensures Normalized(intervals)
      ensures forall v :: Covers(intervals, v) <==> Covers(old(intervals), v)
      ensures count == Some(SumLen(intervals))
    {
      ghost var orig := intervals;
      var a := SortIv(intervals);
      SortIvCorrect(orig);
      ghost var s := a;
      forall k | 0 <= k < |s| ensures s[k].begin <= s[k].end {
        assert s[k] in multiset(orig);
      }
      var n := |a|;
      var keep, cnt;
      ghost var out;
      a, keep, cnt, out := MergeSorted(a);
      intervals := Retained(a, keep, n);
      count := Some(cnt);
      forall v ensures Covers(intervals, v) <==> Covers(orig, v) {
        CoversPerm(s, orig, v);
      }
    }
  }
}
