/**
 * `VectorFst`: states stored in a vector, each with an optional final weight
 * and a vector of outgoing transitions, plus an optional start state. The
 * methods are those of its `MutableFst` implementation.
 */
module VectorFsts {
  import opened Wrappers
  import opened Semirings
  import opened FstTypes
  import opened TrCompare
  import opened DelStatesSpec
  import opened SumTrsSpec

  class VectorFst<W(==)> {
    var states: seq<VectorFstState<W>>
    var start: Option<StateId>

    /** `VectorFst::new`: no states, no start. */
    constructor ()
      ensures states == [] && start == None
    {
      states := [];
      start := None;
    }

    /** The ids `0 .. n - 1` are exactly the states that may be the start or a transition's target. */
    function NumStates(): (n: nat)
      reads this
      ensures forall s: StateId :: StartInRange(states, Some(s)) <==> s < n
      ensures TrsInRange(states) ==>
                forall s, k :: 0 <= s < |states| && 0 <= k < |states[s].trs| ==> states[s].trs[k].nextstate < n
    {
      |states|
    }

    /** Sets the start state; a state that does not exist is an error and changes nothing. */
    method SetStart(s: StateId) returns (r: Result<()>)
      modifies this
      ensures states == old(states)
      ensures s < |old(states)| ==> r.Ok? && start == Some(s)
      ensures s >= |old(states)| ==> r.Err? && start == old(start)
    {
      if s < |states| {
        start := Some(s);
        r := Ok(());
      } else {
        r := Err("The state doesn't exist");
      }
    }

    /** `set_start_unchecked`: no check at all. */
    method SetStartUnchecked(s: StateId)
      modifies this
      ensures states == old(states) && start == Some(s)
    {
      start := Some(s);
    }

    /** Makes `s` final with weight `w`; a state that does not exist is an error and changes nothing. */
    method SetFinal(s: StateId, w: W) returns (r: Result<()>)
      modifies this
      ensures start == old(start)
      ensures s < |old(states)| ==> r.Ok? && states == old(states)[s := old(states)[s].(final_weight := Some(w))]
      ensures s >= |old(states)| ==> r.Err? && states == old(states)
    {
      if s < |states| {
        states := states[s := states[s].(final_weight := Some(w))];
        r := Ok(());
      } else {
        r := Err("Stateid doesn't exist");
      }
    }

    method SetFinalUnchecked(s: StateId, w: W)
      requires s < |states|
      modifies this
      ensures start == old(start)
      ensures states == old(states)[s := old(states)[s].(final_weight := Some(w))]
    {
      states := states[s := states[s].(final_weight := Some(w))];
    }

    /** Appends a fresh state and returns its id, the previous number of states. */
    method AddState() returns (id: StateId)
      modifies this
      ensures id == |old(states)| && |states| == id + 1
      ensures states == old(states) + [EmptyState()] && start == old(start)
    {
      id := |states|;
      states := states + [EmptyState()];
    }

    /** Appends `n` fresh states. */
    method AddStates(n: nat)
      modifies this
      ensures |states| == |old(states)| + n && start == old(start)
      ensures states[..|old(states)|] == old(states)
      ensures forall k :: |old(states)| <= k < |states| ==> states[k] == EmptyState()
    {
      states := states + seq(n, _ => EmptyState());
    }

    /**
     * Deletes the states named in `dstates` (duplicates allowed): survivors
     * keep their order and are renumbered densely from 0, transitions into
     * deleted states disappear, the others are retargeted, and the start
     * follows its state or becomes `None`. The source indexes `new_id` with
     * every deleted id, with every destination of a surviving transition
     * and with the start state, and panics when one is out of range.
     */
    method DelStates(dstates: seq<StateId>) returns (r: Result<()>)
      requires forall x :: x in dstates ==> x < |states|
      requires SurvivorTrsInRange(states, Deleted(dstates))
      requires StartInRange(states, start)
      modifies this
      ensures r.Ok?
      ensures states == DelStatesSpec.DelStates(old(states), Deleted(dstates))
      ensures start == DelStart(old(start), Deleted(dstates))
    {
      ghost var del := Deleted(dstates);
      var n := |states|;
      var newId := new int[n](_ => 0);
      MarkDeleted(newId, dstates);
      KeptStatesTrsInRange(states, del, n);
      var kept := CompactStates(states, newId, del);
      states := RemapStates(kept, newId, del);
      if start.Some? {
        var newState := newId[start.value];
        if newState == -1 {
          start := None;
        } else {
          start := Some(newState as nat);
        }
      }
      r := Ok(());
    }

    /** `del_state`: an id past the end is an error; otherwise `del_states` of that one state. */
    method DelState(s: StateId) returns (r: Result<()>)
      requires s < |states| ==> SurvivorTrsInRange(states, {s}) && StartInRange(states, start)
      modifies this
      ensures s >= |old(states)| ==> r.Err? && states == old(states) && start == old(start)
      ensures s < |old(states)| ==> (r.Ok? && states == DelStatesSpec.DelStates(old(states), {s}) && start == DelStart(old(start), {s}))
    {
      if s >= |states| {
        r := Err("State id doesn't exist");
      } else {
        assert Deleted([s]) == {s};
        r := DelStates([s]);
      }
    }

    /** Removes every state and the start. */
    method DelAllStates()
      modifies this
      ensures states == [] && start == None
    {
      start := None;
      states := [];
    }

    /** Removes, from the back, the transitions of `s` at the increasing indices `toDel`. */
    method DelTrsIdSortedUnchecked(s: StateId, toDel: seq<nat>)
      requires s < |states| && ValidDrops(toDel, |states[s].trs|)
      modifies this
      ensures start == old(start)
      ensures states == old(states)[s := old(states)[s].(trs := DropIdx(old(states)[s].trs, toDel))]
    {
      var trs := DropTrs(states[s].trs, toDel);
      states := states[s := states[s].(trs := trs)];
    }

    /** Appends `tr` to the transitions of `source`; a missing source is an error and changes nothing. */
    method AddTr(source: StateId, tr: Tr<W>) returns (r: Result<()>)
      modifies this
      ensures start == old(start)
      ensures source < |old(states)| ==> (r.Ok? &&
                states == old(states)[source := old(states)[source].(trs := old(states)[source].trs + [tr])])
      ensures source >= |old(states)| ==> r.Err? && states == old(states)
    {
      if source < |states| {
        states := states[source := states[source].(trs := states[source].trs + [tr])];
        r := Ok(());
      } else {
        r := Err("State doesn't exist");
      }
    }

    method AddTrUnchecked(source: StateId, tr: Tr<W>)
      requires source < |states|
      modifies this
      ensures start == old(start)
      ensures states == old(states)[source := old(states)[source].(trs := old(states)[source].trs + [tr])]
    {
      states := states[source := states[source].(trs := states[source].trs + [tr])];
    }

    method SetTrsUnchecked(source: StateId, trs: seq<Tr<W>>)
      requires source < |states|
      modifies this
      ensures start == old(start)
      ensures states == old(states)[source := old(states)[source].(trs := trs)]
    {
      states := states[source := states[source].(trs := trs)];
    }

    /** Makes `source` non-final; a missing state is an error and changes nothing. */
    method DeleteFinalWeight(source: StateId) returns (r: Result<()>)
      modifies this
      ensures start == old(start)
      ensures source < |old(states)| ==> (r.Ok? &&
                states == old(states)[source := old(states)[source].(final_weight := None)])
      ensures source >= |old(states)| ==> r.Err? && states == old(states)
    {
      if source < |states| {
        states := states[source := states[source].(final_weight := None)];
        r := Ok(());
      } else {
        r := Err("State doesn't exist");
      }
    }

    method DeleteFinalWeightUnchecked(source: StateId)
      requires source < |states|
      modifies this
      ensures start == old(start)
      ensures states == old(states)[source := old(states)[source].(final_weight := None)]
    {
      states := states[source := states[source].(final_weight := None)];
    }

    /** Removes every transition of `source`; a missing state is an error and changes nothing. */
    method DeleteTrs(source: StateId) returns (r: Result<()>)
      modifies this
      ensures start == old(start)
      ensures source < |old(states)| ==> (r.Ok? &&
                states == old(states)[source := old(states)[source].(trs := [])])
      ensures source >= |old(states)| ==> r.Err? && states == old(states)
    {
      if source < |states| {
        states := states[source := states[source].(trs := [])];
        r := Ok(());
      } else {
        r := Err("State doesn't exist");
      }
    }

    /** Takes the transitions out of `source`, leaving it none. */
    method PopTrs(source: StateId) returns (r: Result<seq<Tr<W>>>)
      modifies this
      ensures start == old(start)
      ensures source < |old(states)| ==> (r == Ok(old(states)[source].trs) &&
                states == old(states)[source := old(states)[source].(trs := [])])
      ensures source >= |old(states)| ==> r.Err? && states == old(states)
    {
      if source < |states| {
        r := Ok(states[source].trs);
        states := states[source := states[source].(trs := [])];
      } else {
        r := Err("State doesn't exist");
      }
    }

    /** Takes the final weight out of `s`, leaving it non-final. */
    method TakeFinalWeight(s: StateId) returns (r: Result<Option<W>>)
      modifies this
      ensures start == old(start)
      ensures s < |old(states)| ==> (r == Ok(old(states)[s].final_weight) && states == old(states)[s := old(states)[s].(final_weight := None)])
      ensures s >= |old(states)| ==> r.Err? && states == old(states)
    {
      if s < |states| {
        r := Ok(states[s].final_weight);
        states := states[s := states[s].(final_weight := None)];
      } else {
        r := Err("State doesn't exist");
      }
    }

    /**
     * Sorts the transitions of `s` by `tr_compare`, then drops each one equal
     * (weight included) to its predecessor; `SortTrsCorrect` and
     * `DedupCorrect` state what that leaves.
     */
    method UniqueTrsUnchecked(s: StateId)
      requires s < |states|
      modifies this
      ensures start == old(start)
      ensures states == old(states)[s := old(states)[s].(trs := Dedup(SortTrs(old(states)[s].trs)))]
    {
      var arcs := SortTrs(states[s].trs);
      arcs := Dedup(arcs);
      states := states[s := states[s].(trs := arcs)];
    }

    /**
     * Sorts the transitions of `s` by `tr_compare`, then folds each run of
     * transitions with equal labels and destination into its first one,
     * adding up the weights with the semiring's Plus.
     */
    method SumTrsUnchecked(sr: Semiring<W>, s: StateId)
      requires s < |states|
      modifies this
      ensures start == old(start)
      ensures states == old(states)[s := old(states)[s].(trs := SumRuns(sr.plus, SortTrs(old(states)[s].trs)))]
    {
      var arcs := SortTrs(states[s].trs);
      arcs := SumSorted(sr.plus, arcs);
      states := states[s := states[s].(trs := arcs)];
    }
  }

  /** The first loop of `del_states`: `new_id[s] = -1` for every `s` to delete. */
  method MarkDeleted(newId: array<int>, dstates: seq<StateId>)
    requires forall x :: x in dstates ==> x < newId.Length
    requires forall k :: 0 <= k < newId.Length ==> newId[k] == 0
    modifies newId
    ensures forall k :: 0 <= k < newId.Length ==> newId[k] == (if k in Deleted(dstates) then -1 else 0)
  {
    for j := 0 to |dstates|
      invariant forall k :: 0 <= k < newId.Length ==> newId[k] == (if k in Deleted(dstates[..j]) then -1 else 0)
    {
      assert dstates[j] in dstates;
      assert dstates[..j + 1] == dstates[..j] + [dstates[j]];
      newId[dstates[j]] := -1;
    }
    assert dstates[..|dstates|] == dstates;
  }

  /**
   * The second loop of `del_states` and the truncation after it: each
   * surviving state is swapped down to the next free slot and gets that
   * slot's number as its new id.
   */
  method CompactStates<S>(states: seq<S>, newId: array<int>, ghost del: set<StateId>) returns (r: seq<S>)
    requires newId.Length == |states|
    requires forall k :: 0 <= k < newId.Length ==> newId[k] == (if k in del then -1 else 0)
    modifies newId
    ensures r == KeptStates(states, del)
    ensures forall k :: 0 <= k < newId.Length ==> newId[k] == NewId(del, k)
  {
    var n := |states|;
    var v := states;
    var nstates := 0;
    for s := 0 to n
      invariant |v| == n
      invariant nstates == KeptCount(del, s) && nstates <= s
      invariant v[..nstates] == KeptStates(states[..s], del)
      invariant forall k :: s <= k < n ==> v[k] == states[k]
      invariant forall k :: 0 <= k < s ==> newId[k] == NewId(del, k)
      invariant forall k :: s <= k < n ==> newId[k] == (if k in del then -1 else 0)
    {
      assert states[..s + 1][..s] == states[..s];
      KeptCountBounds(del, s, s + 1);
      if newId[s] != -1 {
        newId[s] := nstates;
        if s != nstates {
          v := v[nstates := v[s]][s := v[nstates]];
        }
        assert v[..nstates + 1] == v[..nstates] + [states[s]];
        nstates := nstates + 1;
      }
    }
    assert states[..n] == states;
    r := v[..nstates];
  }

  /** The third loop of `del_states`: every surviving state's transitions go through `new_id`. */
  method RemapStates<W>(kept: seq<VectorFstState<W>>, newId: array<int>, ghost del: set<StateId>)
    returns (r: seq<VectorFstState<W>>)
    requires forall k :: 0 <= k < newId.Length ==> newId[k] == NewId(del, k)
    requires forall j, k :: 0 <= j < |kept| && 0 <= k < |kept[j].trs| ==> kept[j].trs[k].nextstate < newId.Length
    ensures r == seq(|kept|, i requires 0 <= i < |kept| => RemapState(kept[i], del))
  {
    r := kept;
    for s := 0 to |r|
      invariant |r| == |kept|
      invariant forall k :: 0 <= k < s ==> r[k] == RemapState(kept[k], del)
      invariant forall k :: s <= k < |r| ==> r[k] == kept[k]
    {
      var trs := RemapTrsOf(r[s].trs, newId, del);
      r := r[s := r[s].(trs := trs)];
    }
  }

  /**
   * One state's pass of `del_states`: retarget each transition through
   * `new_id`, recording the indices of those into deleted states, then
   * remove the recorded indices from the back.
   */
  method RemapTrsOf<W>(trs: seq<Tr<W>>, newId: array<int>, ghost del: set<StateId>) returns (r: seq<Tr<W>>)
    requires forall k :: 0 <= k < newId.Length ==> newId[k] == NewId(del, k)
    requires forall k :: 0 <= k < |trs| ==> trs[k].nextstate < newId.Length
    ensures r == RemapTrs(trs, del)
  {
    var arcs := trs;
    var toDelete: seq<nat> := [];
    for idx := 0 to |arcs|
      invariant |arcs| == |trs|
      invariant forall k :: 0 <= k < idx ==> arcs[k] == Retarget(trs[k], del)
      invariant forall k :: idx <= k < |trs| ==> arcs[k] == trs[k]
      invariant toDelete == DeletedIdx(trs[..idx], del)
    {
      assert trs[..idx + 1][..idx] == trs[..idx];
      var t := newId[arcs[idx].nextstate];
      if t != -1 {
        arcs := arcs[idx := arcs[idx].(nextstate := t as nat)];
      } else {
        toDelete := toDelete + [idx];
      }
    }
    assert trs[..|trs|] == trs;
    assert arcs == RetargetAll(trs, del);
    DropRetargeted(trs, del);
    r := DropTrs(arcs, toDelete);
  }

  /**
   * The loop of `sum_trs_unchecked` on the sorted transitions: `n_trs`
   * transitions are kept at the front; each next one is Plus-merged into the
   * last kept one when `equal_tr` holds, and swapped to the front otherwise.
   */
  method SumSorted<W>(plus: (W, W) -> W, sorted: seq<Tr<W>>) returns (r: seq<Tr<W>>)
    ensures r == SumRuns(plus, sorted)
  {
    var arcs := sorted;
    var nTrs := 0;
    for i := 0 to |arcs|
      invariant SumLoopInv(plus, sorted, arcs, nTrs, i)
    {
      ghost var done := arcs[..nTrs];
      ghost var before := arcs;
      assert sorted[..i + 1][..i] == sorted[..i];
      var x := arcs[i];
      assert x == sorted[i] by { assert arcs[i..][0] == sorted[i..][0]; }
      if nTrs > 0 && SameKey(x, arcs[nTrs - 1]) {
        var merged := arcs[nTrs - 1].(weight := plus(arcs[nTrs - 1].weight, x.weight));
        arcs := arcs[nTrs - 1 := merged];
        assert arcs[..nTrs] == done[..nTrs - 1] + [merged];
      } else {
        var displaced := arcs[nTrs];
        arcs := arcs[nTrs := x][i := displaced];
        assert arcs[..nTrs + 1] == done + [x];
        nTrs := nTrs + 1;
      }
      assert arcs[i + 1..] == sorted[i + 1..] by { assert before[i + 1..] == sorted[i + 1..]; }
    }
    assert sorted[..|sorted|] == sorted;
    r := arcs[..nTrs];
  }

  /**
   * After `i` steps of the `sum_trs_unchecked` loop, the first `n_trs`
   * transitions are the merge of the first `i` sorted ones, and from `i` on
   * nothing has been touched.
   */
  ghost predicate SumLoopInv<W>(plus: (W, W) -> W, sorted: seq<Tr<W>>, arcs: seq<Tr<W>>, nTrs: nat, i: nat)
  {
    && |arcs| == |sorted| && nTrs <= i <= |sorted|
    && arcs[..nTrs] == SumRuns(plus, sorted[..i])
    && arcs[i..] == sorted[i..]
  }

  /** `for i in to_del.iter().rev() { trs.remove(*i) }`. */
  method DropTrs<W>(trs: seq<Tr<W>>, toDel: seq<nat>) returns (r: seq<Tr<W>>)
    requires ValidDrops(toDel, |trs|)
    ensures r == DropIdx(trs, toDel)
  {
    r := trs;
    var j := |toDel|;
    assert toDel[..j] == toDel;
    while j > 0
      invariant 0 <= j <= |toDel|
      invariant ValidDrops(toDel[..j], |r|)
      invariant DropIdx(r, toDel[..j]) == DropIdx(trs, toDel)
    {
      var i := toDel[j - 1];
      assert toDel[..j][..j - 1] == toDel[..j - 1];
      r := r[..i] + r[i + 1..];
      j := j - 1;
    }
  }
}
