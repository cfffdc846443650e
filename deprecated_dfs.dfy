/**
 * The deprecated recursive `dfs`: a depth-first search from one state that
 * records the states it visits as accessible and, on the way back, a state
 * as coaccessible when it is final or one of its transitions leads to a state
 * already recorded as coaccessible.
 */
module DeprecatedDfs {
  import opened FstTypes
  import opened Dfs

  /** `is_final`. */
  predicate IsFinal<W>(states: seq<VectorFstState<W>>, s: StateId)
    requires s < |states|
  {
    states[s].final_weight.Some?
  }

  /** `s` reaches a final state. */
  ghost predicate CoAccessible<W>(states: seq<VectorFstState<W>>, s: StateId)
  {
    exists t: StateId :: t < |states| && IsFinal(states, t) && Reaches(Targets(states), s, t)
  }

  /** Every state of `coacc` really reaches a final state. */
  ghost predicate Sound<W>(states: seq<VectorFstState<W>>, coacc: set<StateId>)
  {
    forall x :: x in coacc ==> CoAccessible(states, x)
  }

  /** The rule that marks `x`: it is final, or a transition leaves it for a state of `coacc`. */
  ghost predicate Marked<W>(states: seq<VectorFstState<W>>, coacc: set<StateId>, x: StateId)
  {
    x < |states| &&
    (IsFinal(states, x) || exists k :: 0 <= k < |states[x].trs| && states[x].trs[k].nextstate in coacc)
  }

  /** Every transition out of `x` ends in `acc`. */
  ghost predicate SuccsIn<W>(states: seq<VectorFstState<W>>, acc: set<StateId>, x: StateId)
  {
    x < |states| && forall k :: 0 <= k < |states[x].trs| ==> states[x].trs[k].nextstate in acc
  }

  /** The states below `n` outside `acc`: what the search may still visit. */
  function Unseen(n: nat, acc: set<StateId>): (u: set<StateId>)
    ensures forall x: StateId :: x in u <==> x < n && x !in acc
  {
    set x: StateId | x < n && x !in acc
  }

  lemma UnseenShrinks(n: nat, a: set<StateId>, b: set<StateId>, y: StateId)
    requires a <= b && y < n && y !in b
    ensures |Unseen(n, b + {y})| < |Unseen(n, a)|
  {
    var u, v := Unseen(n, b + {y}), Unseen(n, a);
    assert u <= v - {y};
    assert y in v;
    SubsetCard(u, v - {y});
  }

  lemma {:induction false} SubsetCard(u: set<StateId>, v: set<StateId>)
    requires u <= v
    ensures |u| <= |v|
    decreases |v|
  {
    if u != {} {
      var x :| x in u;
      SubsetCard(u - {x}, v - {x});
    }
  }

  /** A state marked against a set is marked against every larger set. */
  lemma MarkedGrows<W>(states: seq<VectorFstState<W>>, c1: set<StateId>, c2: set<StateId>, x: StateId)
    requires c1 <= c2 && Marked(states, c1, x)
    ensures Marked(states, c2, x)
  {
    if !IsFinal(states, x) {
      var k :| 0 <= k < |states[x].trs| && states[x].trs[k].nextstate in c1;
    }
  }

  /** A state that is marked, in a sound set, is coaccessible. */
  lemma MarkedSound<W>(states: seq<VectorFstState<W>>, coacc: set<StateId>, x: StateId)
    requires TrsInRange(states) && Sound(states, coacc) && Marked(states, coacc, x)
    ensures CoAccessible(states, x)
  {
    var g := Targets(states);
    if IsFinal(states, x) {
      ReachRefl(g, x);
    } else {
      var k :| 0 <= k < |states[x].trs| && states[x].trs[k].nextstate in coacc;
      var y := states[x].trs[k].nextstate;
      var t: StateId :| t < |states| && IsFinal(states, t) && Reaches(g, y, t);
      assert g[x][k] == y;
      ReachPrepend(g, x, y, t);
    }
  }

  /**
   * What one call `dfs(fst, cour, acc, coacc)` leaves behind in `acc2` and
   * `coacc2`. The sets grow; every state newly made accessible is reachable
   * from `cour` and has all its successors accessible; only `cour` and newly
   * visited states become coaccessible, each only when the marking rule
   * holds for it; `cour` becomes coaccessible exactly when the rule holds for
   * it in the final set; and a set of truly coaccessible states stays so.
   */
  ghost predicate DfsPost<W>(states: seq<VectorFstState<W>>, cour: StateId, acc: set<StateId>, coacc: set<StateId>,
                             acc2: set<StateId>, coacc2: set<StateId>)
  {
    && acc + {cour} <= acc2 && coacc <= coacc2
    && (forall x :: x in acc2 - acc ==> Reaches(Targets(states), cour, x))
    && (forall x :: x in acc2 - acc || x == cour ==> SuccsIn(states, acc2, x))
    && (forall x :: x in coacc2 - coacc ==> x in acc2 - acc || x == cour)
    && (forall x :: x in acc2 - acc ==> (x in coacc2 ==> x in coacc || Marked(states, coacc2, x)))
    && (cour in coacc2 <==> cour in coacc || Marked(states, coacc2, cour))
    && (Sound(states, coacc) ==> Sound(states, coacc2))
  }

  /** The state of the loop over the transitions of `cour` after `k` of them. */
  ghost predicate LoopInv<W>(states: seq<VectorFstState<W>>, cour: StateId, acc: set<StateId>, coacc: set<StateId>,
                             acc2: set<StateId>, coacc2: set<StateId>, isCoaccessible: bool, k: nat)
    requires cour < |states|
  {
    var trs := states[cour].trs;
    && k <= |trs|
    && acc + {cour} <= acc2 && coacc <= coacc2
    && (forall x :: x in acc2 - acc ==> Reaches(Targets(states), cour, x))
    && (forall x :: x in acc2 - acc && x != cour ==> SuccsIn(states, acc2, x))
    && (forall j :: 0 <= j < k ==> trs[j].nextstate in acc2)
    && (forall x :: x in coacc2 - coacc ==> x in acc2 - acc && x != cour)
    && (forall x :: x in acc2 - acc && x != cour ==> (x in coacc2 ==> x in coacc || Marked(states, coacc2, x)))
    && (isCoaccessible <==> IsFinal(states, cour) || exists j :: 0 <= j < k && trs[j].nextstate in coacc2)
    && (Sound(states, coacc) ==> Sound(states, coacc2) && (isCoaccessible ==> CoAccessible(states, cour)))
  }

  /** A nested call on an unvisited successor keeps the loop's invariant. */
  lemma CallStep<W>(states: seq<VectorFstState<W>>, cour: StateId, acc: set<StateId>, coacc: set<StateId>,
                    a0: set<StateId>, c0: set<StateId>, a1: set<StateId>, c1: set<StateId>, isCoaccessible: bool, k: nat)
    requires TrsInRange(states) && cour < |states| && k < |states[cour].trs|
    requires LoopInv(states, cour, acc, coacc, a0, c0, isCoaccessible, k)
    requires states[cour].trs[k].nextstate !in a0
    requires DfsPost(states, states[cour].trs[k].nextstate, a0, c0, a1, c1)
    ensures LoopInv(states, cour, acc, coacc, a1, c1, isCoaccessible, k) && states[cour].trs[k].nextstate in a1
  {
    var g, trs, next := Targets(states), states[cour].trs, states[cour].trs[k].nextstate;
    assert g[cour][k] == next;
    forall x | x in a1 - acc ensures Reaches(g, cour, x) {
      if x !in a0 {
        ReachPrepend(g, cour, next, x);
      }
    }
    forall x | x in a1 - acc && x != cour ensures SuccsIn(states, a1, x) {
      if x in a0 {
        assert SuccsIn(states, a0, x);
      } else {
        assert x in a1 - a0;
      }
    }
    forall x | x in c1 - coacc ensures x in a1 - acc && x != cour {
      if x in c0 {
        assert x in c0 - coacc;
      } else {
        assert x in a1 - a0 || x == next;
        assert x !in a0 && acc + {cour} <= a0;
      }
    }
    forall x | x in a1 - acc && x != cour && x in c1 && x !in coacc ensures Marked(states, c1, x) {
      if x in c0 {
        MarkedGrows(states, c0, c1, x);
      }
    }
    forall j | 0 <= j < k ensures trs[j].nextstate in c1 <==> trs[j].nextstate in c0 {
      var y := trs[j].nextstate;
      assert y in a0 && y != next;
      assert y in c1 - c0 ==> y in a1 - a0 || y == next;
    }
    assert (exists j :: 0 <= j < k && trs[j].nextstate in c0) <==> (exists j :: 0 <= j < k && trs[j].nextstate in c1);
  }

  /** Checking the `k`-th transition keeps the loop's invariant one step further. */
  lemma CheckStep<W>(states: seq<VectorFstState<W>>, cour: StateId, acc: set<StateId>, coacc: set<StateId>,
                     a: set<StateId>, c: set<StateId>, isCoaccessible: bool, k: nat)
    requires TrsInRange(states) && cour < |states| && k < |states[cour].trs|
    requires LoopInv(states, cour, acc, coacc, a, c, isCoaccessible, k)
    requires states[cour].trs[k].nextstate in a
    ensures LoopInv(states, cour, acc, coacc, a, c, isCoaccessible || states[cour].trs[k].nextstate in c, k + 1)
  {
    var trs, next := states[cour].trs, states[cour].trs[k].nextstate;
    if next in c && Sound(states, coacc) {
      MarkedSound(states, c, cour);
    }
  }

  /** Marking `cour` at the end of its loop completes the call. */
  lemma FinishStep<W>(states: seq<VectorFstState<W>>, cour: StateId, acc: set<StateId>, coacc: set<StateId>,
                      a: set<StateId>, c: set<StateId>, isCoaccessible: bool)
    requires TrsInRange(states) && cour < |states|
    requires LoopInv(states, cour, acc, coacc, a, c, isCoaccessible, |states[cour].trs|)
    ensures DfsPost(states, cour, acc, coacc, a, if isCoaccessible then c + {cour} else c)
  {
    var c2 := if isCoaccessible then c + {cour} else c;
    forall x | x in a - acc && x != cour && x in c2 && x !in coacc ensures Marked(states, c2, x) {
      MarkedGrows(states, c, c2, x);
    }
    assert SuccsIn(states, a, cour);
    if isCoaccessible {
      MarkedGrows(states, c, c2, cour);
    } else {
      assert cour !in c - coacc;
      assert !Marked(states, c, cour);
    }
    assert cour in c2 <==> cour in coacc || Marked(states, c2, cour);
    assert forall x :: x in c2 - coacc ==> x in a - acc || x == cour;
  }

  /**
   * `dfs(fst, cour, accessible, coaccessible)`: mark `cour` accessible,
   * search every successor not yet accessible, then mark `cour`
   * coaccessible when it is final or some successor is coaccessible.
   */
  method DeprecatedDfs<W>(states: seq<VectorFstState<W>>, cour: StateId, acc: set<StateId>, coacc: set<StateId>)
    returns (acc2: set<StateId>, coacc2: set<StateId>)
    requires TrsInRange(states) && cour < |states|
    ensures DfsPost(states, cour, acc, coacc, acc2, coacc2)
    decreases |Unseen(|states|, acc + {cour})|
  {
    ReachRefl(Targets(states), cour);
    acc2, coacc2 := acc + {cour}, coacc;
    var isCoaccessible := IsFinal(states, cour);
    var trs := states[cour].trs;
    for k := 0 to |trs|
      invariant LoopInv(states, cour, acc, coacc, acc2, coacc2, isCoaccessible, k)
    {
      var next := trs[k].nextstate;
      if next !in acc2 {
        UnseenShrinks(|states|, acc + {cour}, acc2, next);
        ghost var a0, c0 := acc2, coacc2;
        acc2, coacc2 := DeprecatedDfs(states, next, acc2, coacc2);
        CallStep(states, cour, acc, coacc, a0, c0, acc2, coacc2, isCoaccessible, k);
      }
      CheckStep(states, cour, acc, coacc, acc2, coacc2, isCoaccessible, k);
      if next in coacc2 {
        isCoaccessible := true;
      }
    }
    FinishStep(states, cour, acc, coacc, acc2, coacc2, isCoaccessible);
    if isCoaccessible {
      coacc2 := coacc2 + {cour};
    }
  }

  /**
   * Started from empty sets, as the callers of `dfs` do, the accessible set
   * is exactly the states reachable from the start and every state marked
   * coaccessible reaches a final state.
   */
  lemma FromEmpty<W>(states: seq<VectorFstState<W>>, start: StateId, acc: set<StateId>, coacc: set<StateId>)
    requires TrsInRange(states) && DfsPost(states, start, {}, {}, acc, coacc)
    ensures forall x :: x in acc <==> Reaches(Targets(states), start, x)
    ensures Sound(states, coacc)
  {
    var g := Targets(states);
    forall x, k | x in acc && x < |g| && 0 <= k < |g[x]| ensures g[x][k] in acc {
      assert SuccsIn(states, acc, x);
    }
    forall x | Reaches(g, start, x) ensures x in acc {
      var p :| Walk(g, start, p, x);
      WalkStays(g, acc, start, p, x);
    }
  }
}
