/**
 * `PathsIterator`: enumerates the accepted paths of an FST (input labels,
 * output labels, and the product of the weights along the path times the
 * final weight) breadth-first, from a queue of (state, path so far) pairs.
 *
 * The model is restricted to acyclic FSTs, which it is given as a `rank`
 * of the states that every transition strictly decreases: on a cycle the
 * iteration does not end.
 */
module PathsIterators {
  import opened Wrappers
  import opened FstTypes
  import opened Semirings

  /** `FstPath`: the labels read and written so far, and the weight so far. */
  datatype FstPath<W> = FstPath(ilabels: seq<Label>, olabels: seq<Label>, weight: W)

  /** `FstPath::default`: no labels, weight One. */
  function DefaultPath<W>(sr: Semiring<W>): FstPath<W>
  {
    FstPath([], [], sr.one)
  }

  /** `add_to_path`: epsilon labels are not recorded; the weight is multiplied on the right. */
  function AddToPath<W>(p: FstPath<W>, tr: Tr<W>, sr: Semiring<W>): FstPath<W>
  {
    FstPath(p.ilabels + (if tr.ilabel == EPS_LABEL then [] else [tr.ilabel]),
            p.olabels + (if tr.olabel == EPS_LABEL then [] else [tr.olabel]),
            sr.times(p.weight, tr.weight))
  }

  /** `add_weight`. */
  function AddWeight<W>(p: FstPath<W>, w: W, sr: Semiring<W>): FstPath<W>
  {
    p.(weight := sr.times(p.weight, w))
  }

  /** Every transition leads to an existing state of strictly smaller rank (so the FST is acyclic). */
  predicate Ranked<W>(fst: seq<VectorFstState<W>>, rank: seq<nat>)
  {
    && |rank| == |fst|
    && TrsInRange(fst)
    && forall s, k :: 0 <= s < |fst| && 0 <= k < |fst[s].trs| ==> rank[fst[s].trs[k].nextstate] < rank[s]
  }

  /** Transitions that all lead to existing states of rank below `bound`. */
  predicate Below<W>(fst: seq<VectorFstState<W>>, rank: seq<nat>, bound: nat, trs: seq<Tr<W>>)
    requires |rank| == |fst|
  {
    forall k :: 0 <= k < |trs| ==> trs[k].nextstate < |fst| && rank[trs[k].nextstate] < bound
  }

  lemma StateBelow<W>(fst: seq<VectorFstState<W>>, rank: seq<nat>, s: StateId)
    requires Ranked(fst, rank) && s < |fst|
    ensures Below(fst, rank, rank[s], fst[s].trs)
  {
  }

  // ---------------------------------------------------------------------------
  // The paths still to come.

  /**
   * The complete paths that extend `p` from state `s`: `p` itself with the
   * final weight if `s` is final, then those through each transition.
   */
  ghost function PathsFrom<W>(fst: seq<VectorFstState<W>>, rank: seq<nat>, sr: Semiring<W>, s: StateId, p: FstPath<W>)
    : multiset<FstPath<W>>
    requires Ranked(fst, rank) && s < |fst|
    decreases rank[s], 1
  {
    StateBelow(fst, rank, s);
    (if fst[s].final_weight.Some? then multiset{AddWeight(p, fst[s].final_weight.value, sr)} else multiset{})
    + PathsVia(fst, rank, sr, rank[s], fst[s].trs, p)
  }

  /** The complete paths that extend `p` through one of `trs`. */
  ghost function PathsVia<W>(fst: seq<VectorFstState<W>>, rank: seq<nat>, sr: Semiring<W>, bound: nat, trs: seq<Tr<W>>, p: FstPath<W>)
    : multiset<FstPath<W>>
    requires Ranked(fst, rank) && Below(fst, rank, bound, trs)
    decreases bound, 0, |trs|
  {
    if trs == [] then multiset{}
    else
      var last := trs[|trs| - 1];
      PathsVia(fst, rank, sr, bound, trs[..|trs| - 1], p) + PathsFrom(fst, rank, sr, last.nextstate, AddToPath(p, last, sr))
  }

  /** The number of walks that start in `s` (the empty one included). */
  ghost function Nodes<W>(fst: seq<VectorFstState<W>>, rank: seq<nat>, s: StateId): nat
    requires Ranked(fst, rank) && s < |fst|
    decreases rank[s], 1
  {
    StateBelow(fst, rank, s);
    1 + NodesVia(fst, rank, rank[s], fst[s].trs)
  }

  ghost function NodesVia<W>(fst: seq<VectorFstState<W>>, rank: seq<nat>, bound: nat, trs: seq<Tr<W>>): nat
    requires Ranked(fst, rank) && Below(fst, rank, bound, trs)
    decreases bound, 0, |trs|
  {
    if trs == [] then 0
    else NodesVia(fst, rank, bound, trs[..|trs| - 1]) + Nodes(fst, rank, trs[|trs| - 1].nextstate)
  }

  /** Every queued state exists. */
  predicate QueueInRange<W>(fst: seq<VectorFstState<W>>, queue: seq<(StateId, FstPath<W>)>)
  {
    forall i :: 0 <= i < |queue| ==> queue[i].0 < |fst|
  }

  /** The complete paths the queued pairs lead to. */
  ghost function Pending<W>(fst: seq<VectorFstState<W>>, rank: seq<nat>, sr: Semiring<W>, queue: seq<(StateId, FstPath<W>)>)
    : multiset<FstPath<W>>
    requires Ranked(fst, rank) && QueueInRange(fst, queue)
    decreases |queue|
  {
    if queue == [] then multiset{}
    else PathsFrom(fst, rank, sr, queue[0].0, queue[0].1) + Pending(fst, rank, sr, queue[1..])
  }

  /** The work left: the walks from the queued states. */
  ghost function QueueNodes<W>(fst: seq<VectorFstState<W>>, rank: seq<nat>, queue: seq<(StateId, FstPath<W>)>): nat
    requires Ranked(fst, rank) && QueueInRange(fst, queue)
    decreases |queue|
  {
    if queue == [] then 0
    else Nodes(fst, rank, queue[0].0) + QueueNodes(fst, rank, queue[1..])
  }

  lemma {:induction false} PendingAppend<W>(fst: seq<VectorFstState<W>>, rank: seq<nat>, sr: Semiring<W>,
                                            a: seq<(StateId, FstPath<W>)>, b: seq<(StateId, FstPath<W>)>)
    requires Ranked(fst, rank) && QueueInRange(fst, a) && QueueInRange(fst, b)
    ensures QueueInRange(fst, a + b)
    ensures Pending(fst, rank, sr, a + b) == Pending(fst, rank, sr, a) + Pending(fst, rank, sr, b)
    decreases |a|
  {
    if a == [] {
      assert a + b == b;
    } else {
      var c := a + b;
      assert c[1..] == a[1..] + b;
      PendingAppend(fst, rank, sr, a[1..], b);
      var head := PathsFrom(fst, rank, sr, a[0].0, a[0].1);
      assert Pending(fst, rank, sr, c) == head + Pending(fst, rank, sr, c[1..]);
      assert Pending(fst, rank, sr, a) == head + Pending(fst, rank, sr, a[1..]);
    }
  }

  lemma {:induction false} QueueNodesAppend<W>(fst: seq<VectorFstState<W>>, rank: seq<nat>,
                                               a: seq<(StateId, FstPath<W>)>, b: seq<(StateId, FstPath<W>)>)
    requires Ranked(fst, rank) && QueueInRange(fst, a) && QueueInRange(fst, b)
    ensures QueueInRange(fst, a + b)
    ensures QueueNodes(fst, rank, a + b) == QueueNodes(fst, rank, a) + QueueNodes(fst, rank, b)
    decreases |a|
  {
    if a == [] {
      assert a + b == b;
    } else {
      QueueNodesAppend(fst, rank, a[1..], b);
      assert (a + b)[0] == a[0];
      assert (a + b)[1..] == a[1..] + b;
    }
  }

  /** The pairs `next` queues for the transitions `trs` of a state reached by `p`. */
  function Pushes<W>(trs: seq<Tr<W>>, p: FstPath<W>, sr: Semiring<W>): (r: seq<(StateId, FstPath<W>)>)
    ensures |r| == |trs|
    ensures forall k :: 0 <= k < |trs| ==> r[k] == (trs[k].nextstate, AddToPath(p, trs[k], sr))
  {
    seq(|trs|, k requires 0 <= k < |trs| => (trs[k].nextstate, AddToPath(p, trs[k], sr)))
  }

  /** The queued successors lead to exactly the paths through the transitions. */
  lemma {:induction false} PushesPending<W>(fst: seq<VectorFstState<W>>, rank: seq<nat>, sr: Semiring<W>, bound: nat,
                                            trs: seq<Tr<W>>, p: FstPath<W>)
    requires Ranked(fst, rank) && Below(fst, rank, bound, trs)
    ensures QueueInRange(fst, Pushes(trs, p, sr))
    ensures Pending(fst, rank, sr, Pushes(trs, p, sr)) == PathsVia(fst, rank, sr, bound, trs, p)
    ensures QueueNodes(fst, rank, Pushes(trs, p, sr)) == NodesVia(fst, rank, bound, trs)
    decreases |trs|
  {
    if trs != [] {
      var n := |trs| - 1;
      var q := Pushes(trs[..n], p, sr);
      PushesPending(fst, rank, sr, bound, trs[..n], p);
      var one := [(trs[n].nextstate, AddToPath(p, trs[n], sr))];
      assert Pushes(trs, p, sr) == q + one;
      PendingAppend(fst, rank, sr, q, one);
      QueueNodesAppend(fst, rank, q, one);
      assert one[1..] == [];
      assert Pending(fst, rank, sr, one) == PathsFrom(fst, rank, sr, trs[n].nextstate, AddToPath(p, trs[n], sr));
      assert QueueNodes(fst, rank, one) == Nodes(fst, rank, trs[n].nextstate);
    }
  }

  // ---------------------------------------------------------------------------
  // The paths as walks: what a path's labels and weight are made of.

  /** `w` lists transition indices that can be followed one after the other from `s`. */
  predicate IsWalk<W>(fst: seq<VectorFstState<W>>, s: StateId, w: seq<nat>)
    requires TrsInRange(fst) && s < |fst|
    decreases |w|
  {
    w == [] || (w[0] < |fst[s].trs| && IsWalk(fst, fst[s].trs[w[0]].nextstate, w[1..]))
  }

  /** Where the walk `w` from `s` ends. */
  function WalkEnd<W>(fst: seq<VectorFstState<W>>, s: StateId, w: seq<nat>): (e: StateId)
    requires TrsInRange(fst) && s < |fst| && IsWalk(fst, s, w)
    ensures e < |fst|
    decreases |w|
  {
    if w == [] then s else WalkEnd(fst, fst[s].trs[w[0]].nextstate, w[1..])
  }

  /** `p` extended by each transition of the walk in turn, then by the final weight of its end. */
  function WalkPath<W>(fst: seq<VectorFstState<W>>, sr: Semiring<W>, s: StateId, p: FstPath<W>, w: seq<nat>): FstPath<W>
    requires TrsInRange(fst) && s < |fst| && IsWalk(fst, s, w) && fst[WalkEnd(fst, s, w)].final_weight.Some?
    decreases |w|
  {
    if w == [] then AddWeight(p, fst[s].final_weight.value, sr)
    else
      var tr := fst[s].trs[w[0]];
      WalkPath(fst, sr, tr.nextstate, AddToPath(p, tr, sr), w[1..])
  }

  /** A path through `trs` is one from the target of one of them. */
  lemma {:induction false} PathsViaMember<W>(fst: seq<VectorFstState<W>>, rank: seq<nat>, sr: Semiring<W>, bound: nat,
                                             trs: seq<Tr<W>>, p: FstPath<W>, x: FstPath<W>)
    requires Ranked(fst, rank) && Below(fst, rank, bound, trs)
    requires x in PathsVia(fst, rank, sr, bound, trs, p)
    ensures exists k :: 0 <= k < |trs| && x in PathsFrom(fst, rank, sr, trs[k].nextstate, AddToPath(p, trs[k], sr))
    decreases |trs|
  {
    var n := |trs| - 1;
    var init := trs[..n];
    if x in PathsVia(fst, rank, sr, bound, init, p) {
      PathsViaMember(fst, rank, sr, bound, init, p, x);
      var k :| 0 <= k < n && x in PathsFrom(fst, rank, sr, init[k].nextstate, AddToPath(p, init[k], sr));
      assert init[k] == trs[k];
    } else {
      assert x in PathsFrom(fst, rank, sr, trs[n].nextstate, AddToPath(p, trs[n], sr));
    }
  }

  /** A path from the target of one of `trs` is a path through `trs`. */
  lemma {:induction false} PathsViaHas<W>(fst: seq<VectorFstState<W>>, rank: seq<nat>, sr: Semiring<W>, bound: nat,
                                          trs: seq<Tr<W>>, p: FstPath<W>, x: FstPath<W>, k: nat)
    requires Ranked(fst, rank) && Below(fst, rank, bound, trs)
    requires k < |trs| && x in PathsFrom(fst, rank, sr, trs[k].nextstate, AddToPath(p, trs[k], sr))
    ensures x in PathsVia(fst, rank, sr, bound, trs, p)
    decreases |trs|
  {
    var n := |trs| - 1;
    var init := trs[..n];
    if k < n {
      assert init[k] == trs[k];
      PathsViaHas(fst, rank, sr, bound, init, p, x, k);
    }
  }

  /** Every path yielded from `s` after `p` follows a walk from `s` to a final state. */
  lemma {:induction false} YieldedAreWalks<W>(fst: seq<VectorFstState<W>>, rank: seq<nat>, sr: Semiring<W>,
                                              s: StateId, p: FstPath<W>, x: FstPath<W>)
    requires Ranked(fst, rank) && s < |fst|
    requires x in PathsFrom(fst, rank, sr, s, p)
    ensures exists w :: IsWalk(fst, s, w) && fst[WalkEnd(fst, s, w)].final_weight.Some? && x == WalkPath(fst, sr, s, p, w)
    decreases rank[s]
  {
    StateBelow(fst, rank, s);
    var trs := fst[s].trs;
    if fst[s].final_weight.Some? && x == AddWeight(p, fst[s].final_weight.value, sr) {
      var w: seq<nat> := [];
      assert IsWalk(fst, s, w) && WalkEnd(fst, s, w) == s;
      assert IsWalk(fst, s, w) && fst[WalkEnd(fst, s, w)].final_weight.Some? && x == WalkPath(fst, sr, s, p, w);
    } else {
      assert x in PathsVia(fst, rank, sr, rank[s], trs, p);
      PathsViaMember(fst, rank, sr, rank[s], trs, p, x);
      var k :| 0 <= k < |trs| && x in PathsFrom(fst, rank, sr, trs[k].nextstate, AddToPath(p, trs[k], sr));
      var t, q := trs[k].nextstate, AddToPath(p, trs[k], sr);
      YieldedAreWalks(fst, rank, sr, t, q, x);
      var w': seq<nat> :| IsWalk(fst, t, w') && fst[WalkEnd(fst, t, w')].final_weight.Some? && x == WalkPath(fst, sr, t, q, w');
      WalkCons(fst, sr, s, p, k, w');
      var w := [k] + w';
      assert IsWalk(fst, s, w) && fst[WalkEnd(fst, s, w)].final_weight.Some? && x == WalkPath(fst, sr, s, p, w);
    }
  }

  /** A walk from the target of transition `k` of `s`, preceded by `k`. */
  lemma WalkCons<W>(fst: seq<VectorFstState<W>>, sr: Semiring<W>, s: StateId, p: FstPath<W>, k: nat, w: seq<nat>)
    requires TrsInRange(fst) && s < |fst| && k < |fst[s].trs|
    requires IsWalk(fst, fst[s].trs[k].nextstate, w) && fst[WalkEnd(fst, fst[s].trs[k].nextstate, w)].final_weight.Some?
    ensures IsWalk(fst, s, [k] + w) && fst[WalkEnd(fst, s, [k] + w)].final_weight.Some?
    ensures WalkPath(fst, sr, s, p, [k] + w) == WalkPath(fst, sr, fst[s].trs[k].nextstate, AddToPath(p, fst[s].trs[k], sr), w)
  {
    assert ([k] + w)[1..] == w;
  }

  /** Every walk from `s` to a final state gives a path yielded from `s` after `p`. */
  lemma {:induction false} WalksAreYielded<W>(fst: seq<VectorFstState<W>>, rank: seq<nat>, sr: Semiring<W>,
                                              s: StateId, p: FstPath<W>, w: seq<nat>)
    requires Ranked(fst, rank) && s < |fst|
    requires IsWalk(fst, s, w) && fst[WalkEnd(fst, s, w)].final_weight.Some?
    ensures WalkPath(fst, sr, s, p, w) in PathsFrom(fst, rank, sr, s, p)
    decreases rank[s]
  {
    StateBelow(fst, rank, s);
    if w != [] {
      var trs := fst[s].trs;
      var k := w[0];
      var x := WalkPath(fst, sr, s, p, w);
      assert IsWalk(fst, trs[k].nextstate, w[1..]);
      WalksAreYielded(fst, rank, sr, trs[k].nextstate, AddToPath(p, trs[k], sr), w[1..]);
      PathsViaHas(fst, rank, sr, rank[s], trs, p, x, k);
    }
  }

  /**
   * The paths yielded from `s` after `p` are exactly `p` followed by the
   * labels and weights of a walk from `s` to a final state, times that
   * state's final weight.
   */
  lemma PathsFromAreWalks<W>(fst: seq<VectorFstState<W>>, rank: seq<nat>, sr: Semiring<W>,
                             s: StateId, p: FstPath<W>, x: FstPath<W>)
    requires Ranked(fst, rank) && s < |fst|
    ensures x in PathsFrom(fst, rank, sr, s, p) <==>
            exists w :: IsWalk(fst, s, w) && fst[WalkEnd(fst, s, w)].final_weight.Some? && x == WalkPath(fst, sr, s, p, w)
  {
    if x in PathsFrom(fst, rank, sr, s, p) {
      YieldedAreWalks(fst, rank, sr, s, p, x);
    }
    if exists w :: IsWalk(fst, s, w) && fst[WalkEnd(fst, s, w)].final_weight.Some? && x == WalkPath(fst, sr, s, p, w) {
      var w :| IsWalk(fst, s, w) && fst[WalkEnd(fst, s, w)].final_weight.Some? && x == WalkPath(fst, sr, s, p, w);
      WalksAreYielded(fst, rank, sr, s, p, w);
    }
  }

  /**
   * One round of `next`: popping the front pair and queueing its successors
   * leaves the pending paths minus the popped one (when its state is final),
   * and less work.
   */
  lemma PopPush<W>(fst: seq<VectorFstState<W>>, rank: seq<nat>, sr: Semiring<W>,
                   q: seq<(StateId, FstPath<W>)>, q': seq<(StateId, FstPath<W>)>)
    requires Ranked(fst, rank) && QueueInRange(fst, q) && q != []
    requires q' == q[1..] + Pushes(fst[q[0].0].trs, q[0].1, sr)
    ensures QueueInRange(fst, q')
    ensures Pending(fst, rank, sr, q) == FinalOf(fst[q[0].0], q[0].1, sr) + Pending(fst, rank, sr, q')
    ensures QueueNodes(fst, rank, q') < QueueNodes(fst, rank, q)
  {
    var (s, p) := q[0];
    var trs := fst[s].trs;
    StateBelow(fst, rank, s);
    PushesPending(fst, rank, sr, rank[s], trs, p);
    PendingAppend(fst, rank, sr, q[1..], Pushes(trs, p, sr));
    QueueNodesAppend(fst, rank, q[1..], Pushes(trs, p, sr));
  }

  // ---------------------------------------------------------------------------
  // The iterator.

  class PathsIterator<W> {
    const fst: seq<VectorFstState<W>>
    const sr: Semiring<W>
    ghost const rank: seq<nat>
    var queue: seq<(StateId, FstPath<W>)>

    ghost predicate Valid()
      reads this
    {
      Ranked(fst, rank) && QueueInRange(fst, queue)
    }

    /** The paths not yet yielded, with their multiplicity. */
    ghost function Remaining(): multiset<FstPath<W>>
      reads this
      requires Valid()
    {
      Pending(fst, rank, sr, queue)
    }

    /**
     * `new`: the queue holds the start state with the empty path, or nothing
     * when there is no start; so what remains is every accepted path of the
     * FST.
     */
    constructor (fst: seq<VectorFstState<W>>, start: Option<StateId>, sr: Semiring<W>, ghost rank: seq<nat>)
      requires Ranked(fst, rank) && StartInRange(fst, start)
      ensures this.fst == fst && this.sr == sr && this.rank == rank
      ensures Valid()
      ensures start.None? ==> Remaining() == multiset{}
      ensures start.Some? ==> Remaining() == PathsFrom(fst, rank, sr, start.value, DefaultPath(sr))
    {
      this.fst := fst;
      this.sr := sr;
      this.rank := rank;
      if start.Some? {
        queue := [(start.value, DefaultPath(sr))];
      } else {
        queue := [];
      }
      new;
      if start.Some? {
        assert queue[1..] == [];
        assert Pending(fst, rank, sr, queue) == PathsFrom(fst, rank, sr, start.value, DefaultPath(sr)) + Pending(fst, rank, sr, []);
      }
    }

    /**
     * `next`: pops pairs from the front of the queue, pushing each popped
     * path extended by every outgoing transition to the back, until a popped
     * state is final; that path, times the final weight, is yielded. Each
     * call yields one of the remaining paths and removes it; `None` means
     * none remain.
     */
    method Next() returns (r: Option<FstPath<W>>)
      requires Valid()
      modifies this
      ensures Valid()
      ensures r.None? ==> old(Remaining()) == multiset{} && Remaining() == multiset{}
      ensures r.Some? ==> old(Remaining()) == Remaining() + multiset{r.value}
    {
      while queue != []
        invariant Valid()
        invariant Remaining() == old(Remaining())
        decreases QueueNodes(fst, rank, queue)
      {
        ghost var q0 := queue;
        var (s, path) := queue[0];
        var rest := queue[1..];
        queue := rest;
        var trs := fst[s].trs;
        for i := 0 to |trs|
          invariant queue == rest + Pushes(trs[..i], path, sr)
        {
          assert Pushes(trs[..i + 1], path, sr) == Pushes(trs[..i], path, sr) + [(trs[i].nextstate, AddToPath(path, trs[i], sr))];
          var newPath := AddToPath(path, trs[i], sr);
          queue := queue + [(trs[i].nextstate, newPath)];
        }
        assert trs[..|trs|] == trs;
        PopPush(fst, rank, sr, q0, queue);
        if fst[s].final_weight.Some? {
          r := Some(AddWeight(path, fst[s].final_weight.value, sr));
          return;
        }
      }
      r := None;
    }
  }

  // ---------------------------------------------------------------------------
  // The worked examples, over `IntegerWeight`.

  /** One state, start and final with weight One: the empty path. */
  lemma SingleStateExample()
    ensures PathsFrom([VectorFstState(Some(1), [])], [0], IntegerSemiring(), 0, DefaultPath(IntegerSemiring()))
            == multiset{FstPath([], [], 1)}
  {
    var sr := IntegerSemiring();
    var fst := [VectorFstState(Some(1), [])];
    assert PathsVia(fst, [0], sr, 0, [], DefaultPath(sr)) == multiset{};
  }
  /** The four-state FST of the path tests, final weights given by `f`. */
  function DiamondFst(f: seq<Option<int>>): seq<VectorFstState<int>>
    requires |f| == 4
  {
    [VectorFstState(f[0], [Tr(1, 1, 1, 1), Tr(2, 2, 2, 2), Tr(3, 3, 3, 3)]),
     VectorFstState(f[1], [Tr(4, 4, 4, 3)]),
     VectorFstState(f[2], [Tr(5, 5, 5, 3)]),
     VectorFstState(f[3], [])]
  }

  /** The path `q` completed by the final weight of `st`, if it has one. */
  ghost function FinalOf<W>(st: VectorFstState<W>, q: FstPath<W>, sr: Semiring<W>): multiset<FstPath<W>>
  {
    if st.final_weight.Some? then multiset{AddWeight(q, st.final_weight.value, sr)} else multiset{}
  }

  /** From a state without transitions, only the path that ends there. */
  lemma LeafPaths<W>(fst: seq<VectorFstState<W>>, rank: seq<nat>, sr: Semiring<W>, s: StateId, p: FstPath<W>)
    requires Ranked(fst, rank) && s < |fst| && fst[s].trs == []
    ensures PathsFrom(fst, rank, sr, s, p) == FinalOf(fst[s], p, sr)
  {
  }

  /** From a state whose one transition leads to a state without transitions. */
  lemma OneStepPaths<W>(fst: seq<VectorFstState<W>>, rank: seq<nat>, sr: Semiring<W>, s: StateId, p: FstPath<W>)
    requires Ranked(fst, rank) && s < |fst| && |fst[s].trs| == 1 && fst[fst[s].trs[0].nextstate].trs == []
    ensures PathsFrom(fst, rank, sr, s, p)
            == FinalOf(fst[s], p, sr) + FinalOf(fst[fst[s].trs[0].nextstate], AddToPath(p, fst[s].trs[0], sr), sr)
  {
    StateBelow(fst, rank, s);
    var t := fst[s].trs;
    assert t[..0] == [];
    LeafPaths(fst, rank, sr, t[0].nextstate, AddToPath(p, t[0], sr));
    assert PathsFrom(fst, rank, sr, s, p) == FinalOf(fst[s], p, sr) + PathsVia(fst, rank, sr, rank[s], t, p);
    assert PathsVia(fst, rank, sr, rank[s], t, p)
           == PathsVia(fst, rank, sr, rank[s], t[..0], p) + PathsFrom(fst, rank, sr, t[0].nextstate, AddToPath(p, t[0], sr));
  }

  /** From a state with three transitions. */
  lemma ThreeWayPaths<W>(fst: seq<VectorFstState<W>>, rank: seq<nat>, sr: Semiring<W>, s: StateId, p: FstPath<W>)
    requires Ranked(fst, rank) && s < |fst| && |fst[s].trs| == 3
    ensures var t := fst[s].trs;
            PathsFrom(fst, rank, sr, s, p)
            == FinalOf(fst[s], p, sr)
               + PathsFrom(fst, rank, sr, t[0].nextstate, AddToPath(p, t[0], sr))
               + PathsFrom(fst, rank, sr, t[1].nextstate, AddToPath(p, t[1], sr))
               + PathsFrom(fst, rank, sr, t[2].nextstate, AddToPath(p, t[2], sr))
  {
    var t := fst[s].trs;
    StateBelow(fst, rank, s);
    assert t[..2][..1] == t[..1] && t[..1][..0] == [] && t[..3] == t;
    var via := (n: nat) requires n <= 3 => PathsVia(fst, rank, sr, rank[s], t[..n], p);
    var from := (k: nat) requires k < 3 => PathsFrom(fst, rank, sr, t[k].nextstate, AddToPath(p, t[k], sr));
    assert via(0) == multiset{};
    assert via(1) == via(0) + from(0);
    assert via(2) == via(1) + from(1);
    assert via(3) == via(2) + from(2);
    assert PathsFrom(fst, rank, sr, s, p) == FinalOf(fst[s], p, sr) + via(3);
  }

  /** The four-state FST of the path tests, with the final weights `f`, is ranked. */
  lemma DiamondRanked(f: seq<Option<int>>)
    requires |f| == 4
    ensures Ranked(DiamondFst(f), [2, 1, 1, 0])
  {
  }

  /** Its paths: one ending in each final state, through 1-4, 2-5 or 3 to state 3. */
  lemma DiamondStart(f: seq<Option<int>>)
    requires |f| == 4
    ensures Ranked(DiamondFst(f), [2, 1, 1, 0])
    ensures var fst := DiamondFst(f);
            var sr := IntegerSemiring();
            PathsFrom(fst, [2, 1, 1, 0], sr, 0, DefaultPath(sr))
            == FinalOf(fst[0], FstPath([], [], 1), sr)
               + (FinalOf(fst[1], FstPath([1], [1], 1), sr) + FinalOf(fst[3], FstPath([1, 4], [1, 4], 4), sr))
               + (FinalOf(fst[2], FstPath([2], [2], 2), sr) + FinalOf(fst[3], FstPath([2, 5], [2, 5], 10), sr))
               + FinalOf(fst[3], FstPath([3], [3], 3), sr)
  {
    var sr := IntegerSemiring();
    var fst := DiamondFst(f);
    var rank := [2, 1, 1, 0];
    DiamondRanked(f);
    var d := DefaultPath(sr);
    assert d == FstPath([], [], 1);
    ThreeWayPaths(fst, rank, sr, 0, d);
    assert AddToPath(d, fst[0].trs[0], sr) == FstPath([1], [1], 1);
    assert AddToPath(d, fst[0].trs[1], sr) == FstPath([2], [2], 2);
    assert AddToPath(d, fst[0].trs[2], sr) == FstPath([3], [3], 3);
    assert AddToPath(FstPath([1], [1], 1), fst[1].trs[0], sr) == FstPath([1, 4], [1, 4], 4);
    assert AddToPath(FstPath([2], [2], 2), fst[2].trs[0], sr) == FstPath([2, 5], [2, 5], 10);
    OneStepPaths(fst, rank, sr, 1, FstPath([1], [1], 1));
    OneStepPaths(fst, rank, sr, 2, FstPath([2], [2], 2));
    LeafPaths(fst, rank, sr, 3, FstPath([3], [3], 3));
  }

  /** One final state: three paths, 1-4, 2-5 and 3, each weighted by the product along it times 18. */
  lemma OneFinalStateExample()
    ensures PathsFrom(DiamondFst([None, None, None, Some(18)]), [2, 1, 1, 0], IntegerSemiring(), 0, DefaultPath(IntegerSemiring()))
            == multiset{FstPath([1, 4], [1, 4], 4 * 18), FstPath([2, 5], [2, 5], 10 * 18), FstPath([3], [3], 3 * 18)}
  {
    DiamondStart([None, None, None, Some(18)]);
  }

  /** Every state final: six paths, one ending in each state. */
  lemma MultipleFinalStatesExample()
    ensures PathsFrom(DiamondFst([Some(38), Some(41), Some(53), Some(185)]), [2, 1, 1, 0], IntegerSemiring(), 0,
                      DefaultPath(IntegerSemiring()))
            == multiset{FstPath([], [], 38), FstPath([1], [1], 41), FstPath([2], [2], 2 * 53), FstPath([1, 4], [1, 4], 4 * 185),
                        FstPath([2, 5], [2, 5], 10 * 185), FstPath([3], [3], 3 * 185)}
  {
    DiamondStart([Some(38), Some(41), Some(53), Some(185)]);
  }
}
