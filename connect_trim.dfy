/**
 * What `connect` leaves: deleting the useless states renumbers the others
 * without breaking any path between them, so in the trimmed FST every
 * state is reachable from the start and reaches a final state, and an FST
 * without a start is emptied.
 */
module ConnectTrim {
  import opened Wrappers
  import opened FstTypes
  import opened Dfs
  import opened DelStatesSpec
  import DeprecatedDfs
  import ConnectMarks
  import Connect

  /** A transition between two surviving states is a transition of the trimmed FST, renumbered. */
  lemma EdgeKept<W>(states: seq<VectorFstState<W>>, del: set<StateId>, u: StateId, w: StateId)
    requires u < |states| && u !in del && w !in del && w in Targets(states)[u]
    ensures KeptCount(del, u) < |DelStates(states, del)|
    ensures KeptCount(del, w) in Targets(DelStates(states, del))[KeptCount(del, u)]
  {
    var g, R, i := Targets(states), DelStates(states, del), KeptCount(del, u);
    var k :| 0 <= k < |g[u]| && g[u][k] == w;
    KeptStatesAt(states, del, u);
    assert R[i] == RemapState(states[u], del);
    RemapTrsKeeps(states[u].trs, del, k);
    var t := states[u].trs[k].(nextstate := KeptCount(del, w));
    var j :| 0 <= j < |R[i].trs| && R[i].trs[j] == t;
    assert Targets(R)[i][j] == KeptCount(del, w);
  }

  /**
   * A walk from an accessible state to a coaccessible one passes only
   * through useful states, so `connect` keeps it, renumbered.
   */
  lemma {:induction false} WalkKept<W>(states: seq<VectorFstState<W>>, start: Option<StateId>,
                                       s: StateId, p: seq<StateId>, t: StateId)
    requires Walk(Targets(states), s, p, t)
    requires ConnectMarks.Accessible(states, start, s) && ConnectMarks.CoAccessible(states, t)
    ensures s !in Connect.Useless(states, start)
    ensures Reaches(Targets(DelStates(states, Connect.Useless(states, start))),
                    KeptCount(Connect.Useless(states, start), s), KeptCount(Connect.Useless(states, start), t))
    decreases |p|
  {
    var g, del := Targets(states), Connect.Useless(states, start);
    var f: StateId :| f < |states| && DeprecatedDfs.IsFinal(states, f) && Reaches(g, t, f);
    assert Reaches(g, s, t);
    ReachTrans(g, s, t, f);
    assert ConnectMarks.CoAccessible(states, s);
    if p == [] {
      ReachRefl(Targets(DelStates(states, del)), KeptCount(del, s));
    } else {
      assert Reaches(g, start.value, p[0]) by {
        assert Walk(g, s, [p[0]], p[0]) by {
          assert Walk(g, p[0], [], p[0]);
        }
        ReachTrans(g, start.value, s, p[0]);
      }
      WalkKept(states, start, p[0], p[1..], t);
      EdgeKept(states, del, s, p[0]);
      ReachPrepend(Targets(DelStates(states, del)), KeptCount(del, s), KeptCount(del, p[0]), KeptCount(del, t));
    }
  }

  /** A useful state, renumbered, is reachable from the start of the trimmed FST. */
  lemma KeptAccessible<W>(states: seq<VectorFstState<W>>, start: Option<StateId>, x: StateId)
    requires x < |states| && x !in Connect.Useless(states, start)
    ensures var del := Connect.Useless(states, start);
            ConnectMarks.Accessible(DelStates(states, del), DelStart(start, del), KeptCount(del, x))
  {
    var g, del := Targets(states), Connect.Useless(states, start);
    var s0 := start.value;
    var p :| Walk(g, s0, p, x);
    ReachRefl(g, s0);
    WalkKept(states, start, s0, p, x);
    assert DelStart(start, del) == Some(KeptCount(del, s0));
  }

  /** A useful state, renumbered, reaches a final state of the trimmed FST. */
  lemma KeptCoAccessible<W>(states: seq<VectorFstState<W>>, start: Option<StateId>, x: StateId)
    requires x < |states| && x !in Connect.Useless(states, start)
    ensures var del := Connect.Useless(states, start);
            ConnectMarks.CoAccessible(DelStates(states, del), KeptCount(del, x))
  {
    var g, del := Targets(states), Connect.Useless(states, start);
    var R := DelStates(states, del);
    var f: StateId :| f < |states| && DeprecatedDfs.IsFinal(states, f) && Reaches(g, x, f);
    var q :| Walk(g, x, q, f);
    ReachTrans(g, start.value, x, f);
    ReachRefl(g, f);
    WalkKept(states, start, x, q, f);
    KeptStatesAt(states, del, f);
    assert R[KeptCount(del, f)].final_weight == states[f].final_weight;
    assert DeprecatedDfs.IsFinal(R, KeptCount(del, f));
  }

  /**
   * After `connect`, every state of the FST is reachable from its start and
   * reaches one of its final states.
   */
  lemma ConnectTrims<W>(states: seq<VectorFstState<W>>, start: Option<StateId>, j: StateId)
    requires j < |DelStates(states, Connect.Useless(states, start))|
    ensures var del := Connect.Useless(states, start);
            && ConnectMarks.Accessible(DelStates(states, del), DelStart(start, del), j)
            && ConnectMarks.CoAccessible(DelStates(states, del), j)
  {
    var del := Connect.Useless(states, start);
    KeptStatesOnto(states, del, j);
    var x :| 0 <= x < |states| && x !in del && KeptCount(del, x) == j;
    KeptAccessible(states, start, x);
    KeptCoAccessible(states, start, x);
  }

  lemma {:induction false} AllDeletedCount(del: set<StateId>, n: nat)
    requires forall x :: 0 <= x < n ==> x in del
    ensures KeptCount(del, n) == 0
    decreases n
  {
    if n > 0 {
      AllDeletedCount(del, n - 1);
    }
  }

  /** `connect` on an FST without a start deletes every state. */
  lemma ConnectNoStart<W>(states: seq<VectorFstState<W>>)
    ensures DelStates(states, Connect.Useless(states, None)) == []
    ensures DelStart(None, Connect.Useless(states, None)) == None
  {
    var del := Connect.Useless(states, None);
    AllDeletedCount(del, |states|);
    KeptStatesLength(states, del);
  }
}
