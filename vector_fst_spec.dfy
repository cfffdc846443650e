/**
 * What `del_states` does to the state vector, as functions: which states
 * survive, the ids they get, and how transitions are retargeted or dropped.
 */
module DelStatesSpec {
  import opened Wrappers
  import opened FstTypes

  /** The set of state ids named by the iterator given to `del_states`. */
  function Deleted(dstates: seq<StateId>): set<StateId>
  {
    set x | x in dstates
  }

  /** Number of states below `k` that survive the deletion of `del`. */
  function KeptCount(del: set<StateId>, k: nat): nat
  {
    if k == 0 then 0 else KeptCount(del, k - 1) + (if k - 1 in del then 0 else 1)
  }

  /** The entry of `new_id` for state `s`: -1 if it is deleted, its new id otherwise. */
  function NewId(del: set<StateId>, s: StateId): int
  {
    if s in del then -1 else KeptCount(del, s)
  }

  /** The surviving elements, in their original order. */
  function KeptStates<S>(states: seq<S>, del: set<StateId>): seq<S>
  {
    if states == [] then []
    else KeptStates(states[..|states| - 1], del)
         + (if |states| - 1 in del then [] else [states[|states| - 1]])
  }

  /** Transitions into deleted states are dropped; the others get the new id of their target. */
  function RemapTrs<W>(trs: seq<Tr<W>>, del: set<StateId>): seq<Tr<W>>
  {
    if trs == [] then []
    else
      var t := trs[|trs| - 1];
      RemapTrs(trs[..|trs| - 1], del)
      + (if t.nextstate in del then [] else [t.(nextstate := KeptCount(del, t.nextstate))])
  }

  function RemapState<W>(st: VectorFstState<W>, del: set<StateId>): VectorFstState<W>
  {
    st.(trs := RemapTrs(st.trs, del))
  }

  /** The state vector after `del_states`. */
  function DelStates<W>(states: seq<VectorFstState<W>>, del: set<StateId>): seq<VectorFstState<W>>
  {
    var kept := KeptStates(states, del);
    seq(|kept|, i requires 0 <= i < |kept| => RemapState(kept[i], del))
  }

  /** The start state after `del_states`: gone with its state, renumbered otherwise. */
  function DelStart(start: Option<StateId>, del: set<StateId>): Option<StateId>
  {
    match start
    case None => None
    case Some(s) => if s in del then None else Some(KeptCount(del, s))
  }

  /** The transitions of the states that survive lead to existing states. */
  predicate SurvivorTrsInRange<W>(states: seq<VectorFstState<W>>, del: set<StateId>)
  {
    forall s, k :: 0 <= s < |states| && s !in del && 0 <= k < |states[s].trs| ==>
      states[s].trs[k].nextstate < |states|
  }

  // ---------------------------------------------------------------------------
  // Renumbering

  lemma {:induction false} KeptCountBounds(del: set<StateId>, s: nat, t: nat)
    requires s <= t
    ensures KeptCount(del, s) <= KeptCount(del, t) <= t
    ensures s < t && s !in del ==> KeptCount(del, s) < KeptCount(del, t)
    decreases t
  {
    if t > 0 {
      if s < t {
        KeptCountBounds(del, s, t - 1);
      } else {
        KeptCountBounds(del, t - 1, t - 1);
      }
    }
  }

  /**
   * `new_id` is a dense, order-preserving numbering of the survivors: it
   * stays below their number and is strictly increasing along them.
   */
  lemma NewIdDense(del: set<StateId>, n: nat, s: StateId, t: StateId)
    requires s < t < n && s !in del && t !in del
    ensures 0 <= NewId(del, s) < NewId(del, t) < KeptCount(del, n)
  {
    KeptCountBounds(del, s, t);
    KeptCountBounds(del, t, n);
  }

  lemma {:induction false} KeptStatesLength<S>(states: seq<S>, del: set<StateId>)
    ensures |KeptStates(states, del)| == KeptCount(del, |states|)
    decreases |states|
  {
    if states != [] {
      KeptStatesLength(states[..|states| - 1], del);
    }
  }

  /** A surviving state sits at its new id, so the survivors keep their relative order. */
  lemma {:induction false} KeptStatesAt<S>(states: seq<S>, del: set<StateId>, s: nat)
    requires s < |states| && s !in del
    ensures KeptCount(del, s) < |KeptStates(states, del)|
    ensures KeptStates(states, del)[KeptCount(del, s)] == states[s]
    decreases |states|
  {
    var p := states[..|states| - 1];
    KeptStatesLength(p, del);
    if s < |states| - 1 {
      KeptStatesAt(p, del, s);
    }
  }

  /** Every position of the result holds some surviving state, the one whose new id it is. */
  lemma {:induction false} KeptStatesOnto<S>(states: seq<S>, del: set<StateId>, j: nat)
    requires j < |KeptStates(states, del)|
    ensures exists s :: 0 <= s < |states| && s !in del && KeptCount(del, s) == j
    decreases |states|
  {
    var p := states[..|states| - 1];
    KeptStatesLength(p, del);
    if j < |KeptStates(p, del)| {
      KeptStatesOnto(p, del, j);
      var s :| 0 <= s < |p| && s !in del && KeptCount(del, s) == j;
      assert 0 <= s < |states|;
    } else {
      assert |states| - 1 !in del && KeptCount(del, |states| - 1) == j;
    }
  }

  // ---------------------------------------------------------------------------
  // Transitions

  /** A surviving transition appears in the result, retargeted. */
  lemma {:induction false} RemapTrsKeeps<W>(trs: seq<Tr<W>>, del: set<StateId>, k: nat)
    requires k < |trs| && trs[k].nextstate !in del
    ensures trs[k].(nextstate := KeptCount(del, trs[k].nextstate)) in RemapTrs(trs, del)
    decreases |trs|
  {
    if k < |trs| - 1 {
      RemapTrsKeeps(trs[..|trs| - 1], del, k);
    }
  }

  /** Every transition of the result comes from a transition into a surviving state. */
  lemma {:induction false} RemapTrsFrom<W>(trs: seq<Tr<W>>, del: set<StateId>, u: Tr<W>)
    requires u in RemapTrs(trs, del)
    ensures exists k :: 0 <= k < |trs| && trs[k].nextstate !in del
              && u == trs[k].(nextstate := KeptCount(del, trs[k].nextstate))
    decreases |trs|
  {
    var p := trs[..|trs| - 1];
    if u in RemapTrs(p, del) {
      RemapTrsFrom(p, del, u);
      var k :| 0 <= k < |p| && p[k].nextstate !in del
               && u == p[k].(nextstate := KeptCount(del, p[k].nextstate));
      assert trs[k] == p[k];
    } else {
      assert u == trs[|trs| - 1].(nextstate := KeptCount(del, trs[|trs| - 1].nextstate));
    }
  }

  /** Transitions that led to existing states lead, after renumbering, to existing states. */
  lemma {:induction false} RemapTrsInRange<W>(trs: seq<Tr<W>>, del: set<StateId>, n: nat)
    requires forall k :: 0 <= k < |trs| ==> trs[k].nextstate < n
    ensures forall k :: 0 <= k < |RemapTrs(trs, del)| ==> RemapTrs(trs, del)[k].nextstate < KeptCount(del, n)
    decreases |trs|
  {
    if trs != [] {
      var t := trs[|trs| - 1];
      RemapTrsInRange(trs[..|trs| - 1], del, n);
      if t.nextstate !in del {
        KeptCountBounds(del, t.nextstate, n);
      }
    }
  }

  lemma {:induction false} KeptStatesTrsInRange<W>(states: seq<VectorFstState<W>>, del: set<StateId>, m: nat)
    requires forall s, k :: 0 <= s < |states| && s !in del && 0 <= k < |states[s].trs| ==>
               states[s].trs[k].nextstate < m
    ensures forall j, k :: 0 <= j < |KeptStates(states, del)| && 0 <= k < |KeptStates(states, del)[j].trs| ==>
               KeptStates(states, del)[j].trs[k].nextstate < m
    decreases |states|
  {
    if states != [] {
      KeptStatesTrsInRange(states[..|states| - 1], del, m);
    }
  }

  /**
   * `del_states` keeps a well-formed FST well formed: the survivors' transitions
   * and the start state stay within the new, smaller range.
   */
  lemma DelStatesInRange<W>(states: seq<VectorFstState<W>>, del: set<StateId>, start: Option<StateId>)
    requires SurvivorTrsInRange(states, del) && StartInRange(states, start)
    ensures TrsInRange(DelStates(states, del))
    ensures StartInRange(DelStates(states, del), DelStart(start, del))
  {
    var kept := KeptStates(states, del);
    KeptStatesLength(states, del);
    KeptStatesTrsInRange(states, del, |states|);
    forall j | 0 <= j < |kept| ensures forall k :: 0 <= k < |RemapTrs(kept[j].trs, del)| ==>
                                          RemapTrs(kept[j].trs, del)[k].nextstate < |kept| {
      RemapTrsInRange(kept[j].trs, del, |states|);
    }
    if start.Some? && start.value !in del {
      KeptCountBounds(del, start.value, |states|);
    }
  }

  // ---------------------------------------------------------------------------
  // The in-place removal of `del_states`: retarget, then remove the recorded
  // indices from the back.

  function Retarget<W>(t: Tr<W>, del: set<StateId>): Tr<W>
  {
    if t.nextstate in del then t else t.(nextstate := KeptCount(del, t.nextstate))
  }

  function RetargetAll<W>(trs: seq<Tr<W>>, del: set<StateId>): seq<Tr<W>>
  {
    seq(|trs|, i requires 0 <= i < |trs| => Retarget(trs[i], del))
  }

  /** The indices, in increasing order, of the transitions into deleted states. */
  function DeletedIdx<W>(trs: seq<Tr<W>>, del: set<StateId>): seq<nat>
  {
    if trs == [] then []
    else DeletedIdx(trs[..|trs| - 1], del)
         + (if trs[|trs| - 1].nextstate in del then [|trs| - 1] else [])
  }

  /** Removing the indices of `d` from the back never runs past the end. */
  predicate ValidDrops(d: seq<nat>, n: nat)
  {
    forall k :: 0 <= k < |d| ==> d[k] + |d| - k <= n
  }

  /** `Vec::remove`. */
  function RemoveAt<T>(s: seq<T>, i: nat): seq<T>
    requires i < |s|
  {
    s[..i] + s[i + 1..]
  }

  /** `for i in d.iter().rev() { v.remove(*i) }`. */
  function DropIdx<T>(s: seq<T>, d: seq<nat>): seq<T>
    requires ValidDrops(d, |s|)
    decreases |d|
  {
    if d == [] then s else DropIdx(RemoveAt(s, d[|d| - 1]), d[..|d| - 1])
  }

  lemma {:induction false} DeletedIdxValid<W>(trs: seq<Tr<W>>, del: set<StateId>)
    ensures ValidDrops(DeletedIdx(trs, del), |trs|)
    decreases |trs|
  {
    if trs != [] {
      DeletedIdxValid(trs[..|trs| - 1], del);
    }
  }

  lemma {:induction false} DropIdxAppend<T>(s: seq<T>, x: T, d: seq<nat>)
    requires ValidDrops(d, |s|)
    ensures ValidDrops(d, |s + [x]|)
    ensures DropIdx(s + [x], d) == DropIdx(s, d) + [x]
    decreases |d|
  {
    if d != [] {
      var i := d[|d| - 1];
      assert RemoveAt(s + [x], i) == RemoveAt(s, i) + [x];
      DropIdxAppend(RemoveAt(s, i), x, d[..|d| - 1]);
    }
  }

  /** Retargeting in place and then removing the recorded indices is `RemapTrs`. */
  lemma {:induction false} DropRetargeted<W>(trs: seq<Tr<W>>, del: set<StateId>)
    ensures ValidDrops(DeletedIdx(trs, del), |trs|)
    ensures DropIdx(RetargetAll(trs, del), DeletedIdx(trs, del)) == RemapTrs(trs, del)
    decreases |trs|
  {
    DeletedIdxValid(trs, del);
    if trs != [] {
      var p := trs[..|trs| - 1];
      var t := trs[|trs| - 1];
      DropRetargeted(p, del);
      assert RetargetAll(trs, del) == RetargetAll(p, del) + [Retarget(t, del)];
      if t.nextstate in del {
        assert RemoveAt(RetargetAll(trs, del), |p|) == RetargetAll(p, del);
      } else {
        assert DeletedIdx(trs, del) == DeletedIdx(p, del);
        DropIdxAppend(RetargetAll(p, del), Retarget(t, del), DeletedIdx(p, del));
        assert RemapTrs(trs, del) == RemapTrs(p, del) + [Retarget(t, del)];
      }
    }
  }
}
