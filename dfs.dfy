/**
 * `find_strongly_connected_components`: Tarjan's algorithm over the
 * transitions of an FST. Each state is numbered on discovery, keeps a
 * lowlink, and sits on a stack until the root of its component pops the
 * whole component and gives it the next SCC id. Components are numbered in
 * the order they are completed.
 */
module Dfs {
  import opened Wrappers
  import opened FstTypes

  /** The destinations of the transitions of each state, in order. */
  function Targets<W>(states: seq<VectorFstState<W>>): (g: seq<seq<StateId>>)
    ensures |g| == |states|
    ensures forall s :: 0 <= s < |states| ==> |g[s]| == |states[s].trs|
    ensures forall s, k :: 0 <= s < |states| && 0 <= k < |states[s].trs| ==> g[s][k] == states[s].trs[k].nextstate
  {
    seq(|states|, s requires 0 <= s < |states| => seq(|states[s].trs|, k requires 0 <= k < |states[s].trs| => states[s].trs[k].nextstate))
  }

  /** Every transition leads to a state of the graph. */
  predicate Closed(g: seq<seq<StateId>>)
  {
    forall s, k :: 0 <= s < |g| && 0 <= k < |g[s]| ==> g[s][k] < |g|
  }

  /** Starting at `s`, the states `p` follow one transition each and end at `t`. */
  ghost predicate Walk(g: seq<seq<StateId>>, s: StateId, p: seq<StateId>, t: StateId)
    decreases |p|
  {
    if p == [] then s == t else s < |g| && p[0] in g[s] && Walk(g, p[0], p[1..], t)
  }

  /** `t` can be reached from `s` by zero or more transitions. */
  ghost predicate Reaches(g: seq<seq<StateId>>, s: StateId, t: StateId)
  {
    exists p :: Walk(g, s, p, t)
  }

  lemma ReachRefl(g: seq<seq<StateId>>, s: StateId)
    ensures Reaches(g, s, s)
  {
    assert Walk(g, s, [], s);
  }

  lemma {:induction false} WalkAppend(g: seq<seq<StateId>>, s: StateId, p: seq<StateId>, t: StateId, q: seq<StateId>, u: StateId)
    requires Walk(g, s, p, t) && Walk(g, t, q, u)
    ensures Walk(g, s, p + q, u)
    decreases |p|
  {
    if p != [] {
      WalkAppend(g, p[0], p[1..], t, q, u);
      assert (p + q)[0] == p[0] && (p + q)[1..] == p[1..] + q;
    } else {
      assert p + q == q;
    }
  }

  lemma ReachTrans(g: seq<seq<StateId>>, s: StateId, t: StateId, u: StateId)
    requires Reaches(g, s, t) && Reaches(g, t, u)
    ensures Reaches(g, s, u)
  {
    var p :| Walk(g, s, p, t);
    var q :| Walk(g, t, q, u);
    WalkAppend(g, s, p, t, q, u);
  }

  /** A transition `s -> t` followed by a walk from `t`. */
  lemma ReachPrepend(g: seq<seq<StateId>>, s: StateId, t: StateId, u: StateId)
    requires s < |g| && t in g[s] && Reaches(g, t, u)
    ensures Reaches(g, s, u)
  {
    var q :| Walk(g, t, q, u);
    assert ([t] + q)[0] == t && ([t] + q)[1..] == q;
    assert Walk(g, s, [t] + q, u);
  }

  /** `TempSccs`: the discovery number, the lowlink, whether on the stack, and the SCC id once known. */
  datatype TempSccs = TempSccs(index: nat, lowlink: nat, onStack: bool, scc: Option<nat>)

  type Lol = seq<Option<TempSccs>>

  /** State `s` has been discovered. */
  predicate Vis(lol: Lol, s: int)
  {
    0 <= s < |lol| && lol[s].Some?
  }

  /** State `s` has its SCC id. */
  predicate Done(lol: Lol, s: int)
  {
    Vis(lol, s) && lol[s].value.scc.Some?
  }

  /** State `s` is marked as being on the stack. */
  predicate OnStk(lol: Lol, s: int)
  {
    Vis(lol, s) && lol[s].value.onStack
  }

  function IdxOf(lol: Lol, s: int): nat
  {
    if Vis(lol, s) then lol[s].value.index else 0
  }

  function LowOf(lol: Lol, s: int): nat
  {
    if Vis(lol, s) then lol[s].value.lowlink else 0
  }

  function SccOf(lol: Lol, s: int): nat
  {
    if Done(lol, s) then lol[s].value.scc.value else 0
  }

  /** Some state carries SCC id `id`. */
  ghost predicate IdUsed(lol: Lol, id: nat)
  {
    exists s :: Done(lol, s) && SccOf(lol, s) == id
  }

  /** The stack holds states marked on it, in discovery order, and every state so marked. */
  ghost predicate StackOk(lol: Lol, stack: seq<StateId>)
  {
    && (forall i :: 0 <= i < |stack| ==> OnStk(lol, stack[i]))
    && (forall i, j :: 0 <= i < j < |stack| ==> IdxOf(lol, stack[i]) < IdxOf(lol, stack[j]))
    && (forall s :: OnStk(lol, s) ==> s in stack)
  }

  /**
   * Every discovered state is numbered below the counter, its lowlink is at
   * most its number, and it is on the stack exactly while it has no id.
   */
  ghost predicate NumOk(lol: Lol, index: nat)
  {
    forall s :: Vis(lol, s) ==>
      IdxOf(lol, s) < index && LowOf(lol, s) <= IdxOf(lol, s) && (OnStk(lol, s) <==> !Done(lol, s))
  }

  /**
   * Ids are below `next` and each is used; a transition never leads from a
   * completed component to a later or unfinished one.
   */
  ghost predicate IdsOk(g: seq<seq<StateId>>, lol: Lol, next: nat)
  {
    && |lol| == |g|
    && (forall s :: Done(lol, s) ==> SccOf(lol, s) < next)
    && (forall s, k :: Done(lol, s) && 0 <= k < |g[s]| ==> Done(lol, g[s][k]) && SccOf(lol, g[s][k]) <= SccOf(lol, s))
    && (forall id :: 0 <= id < next ==> IdUsed(lol, id))
  }

  /**
   * Every state on the stack reaches a state on the stack numbered by its
   * lowlink, and states with the same id reach each other.
   */
  ghost predicate ReachOk(g: seq<seq<StateId>>, lol: Lol, stack: seq<StateId>)
  {
    && (forall i :: 0 <= i < |stack| ==> LowReached(g, lol, stack, i))
    && (forall s, t {:trigger Reaches(g, s, t)} :: Done(lol, s) && Done(lol, t) && SccOf(lol, s) == SccOf(lol, t) ==> Reaches(g, s, t))
  }

  /** The state at position `i` of the stack reaches the state on the stack that its lowlink numbers. */
  ghost predicate LowReached(g: seq<seq<StateId>>, lol: Lol, stack: seq<StateId>, i: nat)
    requires i < |stack|
  {
    exists j :: 0 <= j < |stack| && IdxOf(lol, stack[j]) == LowOf(lol, stack[i]) && Reaches(g, stack[i], stack[j])
  }

  /** The state of the algorithm between steps. */
  ghost predicate Inv(g: seq<seq<StateId>>, lol: Lol, stack: seq<StateId>, index: nat, next: nat)
  {
    Closed(g) && StackOk(lol, stack) && NumOk(lol, index) && IdsOk(g, lol, next) && ReachOk(g, lol, stack)
  }

  /**
   * The states on the stack from position `from` on were left there by
   * calls that did not close a component (lowlink below number), their
   * lowlinks are at least that of `v`, and `v` reaches them.
   */
  ghost predicate Above(g: seq<seq<StateId>>, lol: Lol, stack: seq<StateId>, from: nat, v: StateId)
  {
    forall i :: from <= i < |stack| ==>
      LowOf(lol, stack[i]) < IdxOf(lol, stack[i]) && LowOf(lol, v) <= LowOf(lol, stack[i]) && Reaches(g, v, stack[i])
  }

  /** Entries discovered in `L0` are untouched in `lol`. */
  ghost predicate Keeps(L0: Lol, lol: Lol)
  {
    |lol| == |L0| && forall s :: Vis(L0, s) ==> lol[s] == L0[s]
  }

  /** The stack from position `from` on holds only states undiscovered in `L0`. */
  ghost predicate Fresh(stack: seq<StateId>, from: nat, L0: Lol)
  {
    forall i :: from <= i < |stack| ==> !Vis(L0, stack[i])
  }

  /** The target `x` of an examined transition: completed, or discovered and numbered at least `b`. */
  predicate Ok(lol: Lol, x: int, b: nat)
  {
    Done(lol, x) || (Vis(lol, x) && b <= IdxOf(lol, x))
  }

  /** Every transition of the stack's states from position `from` on is `Ok` for `b`. */
  ghost predicate Closure(g: seq<seq<StateId>>, lol: Lol, stack: seq<StateId>, from: nat, b: nat)
  {
    forall i, k :: from <= i < |stack| && stack[i] < |g| && 0 <= k < |g[stack[i]]| ==> Ok(lol, g[stack[i]][k], b)
  }

  /**
   * What `strongconnect(v)` leaves, against the state before it (`S0`,
   * `L0`, counter `i0`, next id `n0`): the old stack is kept below the
   * states it left there, states discovered before are untouched, `v` is
   * numbered `i0`; either `v` closed its component (the stack is back to
   * `S0`) or `v` lies at the bottom of what it left with a lowlink below its
   * number; and every transition of the states left on the stack leads to
   * a completed state or to one numbered at least the lowlink of `v`.
   */
  ghost predicate CallPost(g: seq<seq<StateId>>, lol: Lol, stack: seq<StateId>, index: nat, next: nat,
                           S0: seq<StateId>, L0: Lol, i0: nat, n0: nat, v: StateId)
  {
    && Inv(g, lol, stack, index, next) && Keeps(L0, lol)
    && |stack| >= |S0| && stack[..|S0|] == S0 && Fresh(stack, |S0|, L0)
    && Vis(lol, v) && IdxOf(lol, v) == i0 && index > i0 && next >= n0
    && (|stack| == |S0| ==> Done(lol, v) && LowOf(lol, v) == i0)
    && (|stack| > |S0| ==> stack[|S0|] == v && LowOf(lol, v) < i0)
    && (|stack| > 0 ==> LowOf(lol, v) >= IdxOf(lol, stack[0]))
    && Closure(g, lol, stack, |S0|, LowOf(lol, v))
    && Above(g, lol, stack, |S0|, v)
  }

  /** The state inside `strongconnect(v)` once its first `k` transitions are examined. */
  ghost predicate LoopInv(g: seq<seq<StateId>>, lol: Lol, stack: seq<StateId>, index: nat, next: nat,
                          S0: seq<StateId>, L0: Lol, i0: nat, n0: nat, v: StateId, k: nat)
  {
    && Inv(g, lol, stack, index, next) && Keeps(L0, lol) && v < |g| && !Vis(L0, v)
    && |stack| > |S0| && stack[..|S0|] == S0 && stack[|S0|] == v && Fresh(stack, |S0|, L0)
    && Vis(lol, v) && IdxOf(lol, v) == i0 && OnStk(lol, v) && index > i0 && next >= n0
    && LowOf(lol, v) >= IdxOf(lol, stack[0])
    && Closure(g, lol, stack, |S0| + 1, LowOf(lol, v))
    && Above(g, lol, stack, |S0| + 1, v)
    && k <= |g[v]| && (forall k' :: 0 <= k' < k ==> Ok(lol, g[v][k'], LowOf(lol, v)))
  }

  // ---------------------------------------------------------------------------
  // The invariant under each step of `strongconnect`

  /** The ids in use stay in use while every completed state keeps its id. */
  lemma UsedKept(a: Lol, b: Lol, n: nat)
    requires forall id :: 0 <= id < n ==> IdUsed(a, id)
    requires forall s :: Done(a, s) ==> Done(b, s) && SccOf(b, s) == SccOf(a, s)
    ensures forall id :: 0 <= id < n ==> IdUsed(b, id)
  {
    forall id | 0 <= id < n ensures IdUsed(b, id) {
      assert IdUsed(a, id);
      var s :| Done(a, s) && SccOf(a, s) == id;
      assert Done(b, s) && SccOf(b, s) == id;
    }
  }

  /** Setting the record of a state without an id to another record without an id keeps `IdsOk`. */
  lemma IdsSet(g: seq<seq<StateId>>, lol: Lol, next: nat, v: StateId, t: TempSccs)
    requires IdsOk(g, lol, next) && v < |lol| && !Done(lol, v) && t.scc.None?
    ensures IdsOk(g, lol[v := Some(t)], next)
  {
    var l := lol[v := Some(t)];
    assert forall s :: Done(l, s) ==> s != v && Done(lol, s) && l[s] == lol[s];
    forall s, k | Done(l, s) && 0 <= k < |g[s]| ensures Done(l, g[s][k]) && SccOf(l, g[s][k]) <= SccOf(l, s) {
      assert Done(lol, s);
    }
    UsedKept(lol, l, next);
  }

  /** Setting a record to a well-numbered one keeps `NumOk`. */
  lemma NumSet(lol: Lol, index: nat, index': nat, v: StateId, t: TempSccs)
    requires NumOk(lol, index) && index <= index' && v < |lol|
    requires t.index < index' && t.lowlink <= t.index && (t.onStack <==> t.scc.None?)
    ensures NumOk(lol[v := Some(t)], index')
  {
    var l := lol[v := Some(t)];
    forall s | Vis(l, s) ensures IdxOf(l, s) < index' && LowOf(l, s) <= IdxOf(l, s) && (OnStk(l, s) <==> !Done(l, s)) {
      if s != v { assert Vis(lol, s); }
    }
  }

  /** Pushing a newly discovered state, numbered above all others, keeps `StackOk`. */
  lemma StackPush(lol: Lol, stack: seq<StateId>, index: nat, v: StateId, t: TempSccs)
    requires StackOk(lol, stack) && NumOk(lol, index) && v < |lol| && !Vis(lol, v)
    requires t.onStack && t.index == index
    ensures StackOk(lol[v := Some(t)], stack + [v])
  {
    var l, st := lol[v := Some(t)], stack + [v];
    forall i | 0 <= i < |st| ensures OnStk(l, st[i]) {
      if i < |stack| { assert OnStk(lol, stack[i]); }
    }
    forall i, j | 0 <= i < j < |st| ensures IdxOf(l, st[i]) < IdxOf(l, st[j]) {
      assert OnStk(lol, stack[i]);
      if j < |stack| { assert OnStk(lol, stack[j]); }
    }
    forall s | OnStk(l, s) ensures s in st {
      if s != v { assert OnStk(lol, s); }
    }
  }

  /** Changing the lowlink of a state on the stack keeps `StackOk`. */
  lemma StackSetLow(lol: Lol, stack: seq<StateId>, v: StateId, low: nat)
    requires StackOk(lol, stack) && OnStk(lol, v)
    ensures StackOk(lol[v := Some(lol[v].value.(lowlink := low))], stack)
  {
    var l := lol[v := Some(lol[v].value.(lowlink := low))];
    assert forall s :: Vis(lol, s) ==> IdxOf(l, s) == IdxOf(lol, s) && (OnStk(l, s) <==> OnStk(lol, s));
    forall i | 0 <= i < |stack| ensures OnStk(l, stack[i]) {
      assert OnStk(lol, stack[i]);
    }
    forall i, j | 0 <= i < j < |stack| ensures IdxOf(l, stack[i]) < IdxOf(l, stack[j]) {
      assert OnStk(lol, stack[i]) && OnStk(lol, stack[j]);
    }
    forall s | OnStk(l, s) ensures s in stack {
      assert OnStk(lol, s);
    }
  }

  /** Discovering `v`: numbered `i0`, lowlink `i0`, pushed on the stack. */
  lemma LoopStart(g: seq<seq<StateId>>, L0: Lol, S0: seq<StateId>, i0: nat, n0: nat, v: StateId)
    requires Inv(g, L0, S0, i0, n0) && v < |g| && !Vis(L0, v)
    ensures LoopInv(g, L0[v := Some(TempSccs(i0, i0, true, None))], S0 + [v], i0 + 1, n0, S0, L0, i0, n0, v, 0)
  {
    var t := TempSccs(i0, i0, true, None);
    var L1, S1 := L0[v := Some(t)], S0 + [v];
    IdsSet(g, L0, n0, v, t);
    NumSet(L0, i0, i0 + 1, v, t);
    StackPush(L0, S0, i0, v, t);
    ReachPush(g, L0, S0, v, t);
    assert Keeps(L0, L1);
    assert S1[..|S0|] == S0;
    if |S0| > 0 { assert OnStk(L0, S0[0]); }
  }

  function Min(a: nat, b: nat): nat
  {
    if a <= b then a else b
  }

  /** `Ok` survives a change of record that keeps number and id, and a lower bound. */
  lemma OkTransfer(a: Lol, c: Lol, x: int, b1: nat, b2: nat)
    requires Ok(a, x, b1) && b2 <= b1 && |c| == |a|
    requires 0 <= x < |a| && a[x].Some? ==> c[x].Some? && c[x].value.index == a[x].value.index && c[x].value.scc == a[x].value.scc
    ensures Ok(c, x, b2)
  {
  }

  /** Lowering the lowlink of `v` inside the loop, not below the bottom of the stack, keeps `LoopInv`. */
  lemma SetLow(g: seq<seq<StateId>>, lol: Lol, stack: seq<StateId>, index: nat, next: nat,
               S0: seq<StateId>, L0: Lol, i0: nat, n0: nat, v: StateId, k: nat, b: nat, j: nat)
    requires LoopInv(g, lol, stack, index, next, S0, L0, i0, n0, v, k)
    requires IdxOf(lol, stack[0]) <= b <= LowOf(lol, v)
    requires b == LowOf(lol, v) || (j < |stack| && IdxOf(lol, stack[j]) == b && Reaches(g, v, stack[j]))
    ensures LoopInv(g, lol[v := Some(lol[v].value.(lowlink := b))], stack, index, next, S0, L0, i0, n0, v, k)
  {
    var t := lol[v].value.(lowlink := b);
    var l := lol[v := Some(t)];
    StackSetLow(lol, stack, v, b);
    ReachSetLow(g, lol, stack, v, b, j);
    StackAboveDistinct(lol, stack, |S0|);
    AboveSetLow(g, lol, stack, |S0| + 1, v, b);
    NumSet(lol, index, index, v, t);
    IdsSet(g, lol, next, v, t);
    forall i, k' | |S0| + 1 <= i < |stack| && stack[i] < |g| && 0 <= k' < |g[stack[i]]| ensures Ok(l, g[stack[i]][k'], b) {
      OkTransfer(lol, l, g[stack[i]][k'], LowOf(lol, v), b);
    }
    forall k' | 0 <= k' < k ensures Ok(l, g[v][k'], b) {
      OkTransfer(lol, l, g[v][k'], LowOf(lol, v), b);
    }
    assert stack[0] == v || OnStk(lol, stack[0]);
  }

  /** A transition to a state already discovered: lowered to its number when it is on the stack. */
  lemma LoopBack(g: seq<seq<StateId>>, lol: Lol, stack: seq<StateId>, index: nat, next: nat,
                 S0: seq<StateId>, L0: Lol, i0: nat, n0: nat, v: StateId, k: nat)
    requires LoopInv(g, lol, stack, index, next, S0, L0, i0, n0, v, k)
    requires k < |g[v]| && Vis(lol, g[v][k])
    ensures var w := g[v][k];
            LoopInv(g, if OnStk(lol, w) then lol[v := Some(lol[v].value.(lowlink := Min(LowOf(lol, v), IdxOf(lol, w))))] else lol,
                    stack, index, next, S0, L0, i0, n0, v, k + 1)
  {
    var w := g[v][k];
    if OnStk(lol, w) {
      var b := Min(LowOf(lol, v), IdxOf(lol, w));
      var j :| 0 <= j < |stack| && stack[j] == w;
      assert OnStk(lol, stack[0]);
      assert IdxOf(lol, stack[0]) <= IdxOf(lol, w) by {
        if j > 0 { assert IdxOf(lol, stack[0]) < IdxOf(lol, stack[j]); }
      }
      assert Reaches(g, v, stack[j]) by {
        ReachRefl(g, w);
        ReachPrepend(g, v, w, w);
      }
      SetLow(g, lol, stack, index, next, S0, L0, i0, n0, v, k, b, j);
      var l := lol[v := Some(lol[v].value.(lowlink := b))];
      assert Ok(l, w, b);
    } else {
      assert Done(lol, w);
    }
  }

  /**
   * A transition to an undiscovered state `w` after `strongconnect(w)`
   * returned: `v`'s lowlink becomes the smaller of the two lowlinks.
   */
  lemma LoopChild(g: seq<seq<StateId>>, Lb: Lol, Sb: seq<StateId>, ib: nat, nb: nat,
                  lol: Lol, stack: seq<StateId>, index: nat, next: nat,
                  S0: seq<StateId>, L0: Lol, i0: nat, n0: nat, v: StateId, k: nat)
    requires LoopInv(g, Lb, Sb, ib, nb, S0, L0, i0, n0, v, k)
    requires k < |g[v]| && !Vis(Lb, g[v][k])
    requires CallPost(g, lol, stack, index, next, Sb, Lb, ib, nb, g[v][k])
    ensures var w := g[v][k];
            LoopInv(g, lol[v := Some(lol[v].value.(lowlink := Min(LowOf(lol, v), LowOf(lol, w))))],
                    stack, index, next, S0, L0, i0, n0, v, k + 1)
  {
    var w := g[v][k];
    var b := Min(LowOf(lol, v), LowOf(lol, w));
    var t := lol[v].value.(lowlink := b);
    var l := lol[v := Some(t)];
    assert lol[v] == Lb[v];
    assert OnStk(lol, v);
    StackSetLow(lol, stack, v, b);
    NumSet(lol, index, index, v, t);
    IdsSet(g, lol, next, v, t);
    var jw: nat := 0;
    assert LowOf(lol, v) <= i0 < ib;
    if b != LowOf(lol, v) {
      assert stack[|Sb|] == w;
      assert LowReached(g, lol, stack, |Sb|);
      var j :| 0 <= j < |stack| && IdxOf(lol, stack[j]) == LowOf(lol, stack[|Sb|]) && Reaches(g, stack[|Sb|], stack[j]);
      ReachPrepend(g, v, w, stack[j]);
      jw := j;
    }
    ReachSetLow(g, lol, stack, v, b, jw);
    ChildShape(L0, S0, Lb, Sb, lol, stack, v, t);
    assert OnStk(Lb, Sb[0]);
    assert IdxOf(l, stack[0]) <= b;
    ChildClosure(g, Lb, Sb, lol, stack, |S0| + 1, LowOf(Lb, v), LowOf(lol, w), v, b);
    StackAboveDistinct(lol, stack, |S0|);
    ChildAbove(g, Lb, Sb, lol, stack, |S0| + 1, v, w, b);
    assert Vis(lol, w) && IdxOf(lol, w) == ib;
    ChildOks(g, Lb, lol, v, k, b);
  }

  /** The transitions examined so far, and the child just returned from, stay `Ok` under the lowered lowlink. */
  lemma ChildOks(g: seq<seq<StateId>>, Lb: Lol, lol: Lol, v: StateId, k: nat, b: nat)
    requires v < |g| && k < |g[v]| && Keeps(Lb, lol) && Vis(Lb, v)
    requires forall k' :: 0 <= k' < k ==> Ok(Lb, g[v][k'], LowOf(Lb, v))
    requires b <= LowOf(Lb, v) && Ok(lol, g[v][k], b)
    ensures forall k' :: 0 <= k' < k + 1 ==> Ok(lol[v := Some(lol[v].value.(lowlink := b))], g[v][k'], b)
  {
    var l := lol[v := Some(lol[v].value.(lowlink := b))];
    forall k' | 0 <= k' < k + 1 ensures Ok(l, g[v][k'], b) {
      var x := g[v][k'];
      if k' < k {
        OkTransfer(Lb, lol, x, LowOf(Lb, v), LowOf(Lb, v));
      }
      OkTransfer(lol, l, x, if k' < k then LowOf(Lb, v) else b, b);
    }
  }

  /** After a child call, the caller's view of the stack and of the records is as before. */
  lemma ChildShape(L0: Lol, S0: seq<StateId>, Lb: Lol, Sb: seq<StateId>, lol: Lol, stack: seq<StateId>, v: StateId, t: TempSccs)
    requires Keeps(L0, Lb) && Keeps(Lb, lol) && !Vis(L0, v) && Vis(Lb, v)
    requires |Sb| > |S0| && Sb[..|S0|] == S0 && Sb[|S0|] == v && Fresh(Sb, |S0|, L0)
    requires |stack| >= |Sb| && stack[..|Sb|] == Sb && Fresh(stack, |Sb|, Lb)
    ensures Keeps(L0, lol[v := Some(t)])
    ensures stack[..|S0|] == S0 && stack[|S0|] == v && stack[0] == Sb[0] && Fresh(stack, |S0|, L0)
  {
    forall s | Vis(L0, s) ensures lol[v := Some(t)][s] == L0[s] {
      assert Vis(Lb, s);
    }
    assert stack[..|Sb|][..|S0|] == S0;
    assert stack[..|Sb|][|S0|] == Sb[|S0|];
    assert stack[..|Sb|][0] == Sb[0];
    forall i | |S0| <= i < |stack| ensures !Vis(L0, stack[i]) {
      if i < |Sb| { assert stack[..|Sb|][i] == Sb[i]; }
      else { assert !Vis(Lb, stack[i]); }
    }
  }

  /** The closure of the caller's part of the stack and of the child's part, under the smaller lowlink. */
  lemma ChildClosure(g: seq<seq<StateId>>, Lb: Lol, Sb: seq<StateId>, lol: Lol, stack: seq<StateId>,
                     from: nat, bv: nat, bw: nat, v: StateId, b: nat)
    requires Closure(g, Lb, Sb, from, bv) && Closure(g, lol, stack, |Sb|, bw)
    requires Keeps(Lb, lol) && |stack| >= |Sb| && stack[..|Sb|] == Sb
    requires v < |lol| && lol[v].Some? && b <= bv && b <= bw
    ensures Closure(g, lol[v := Some(lol[v].value.(lowlink := b))], stack, from, b)
  {
    var l := lol[v := Some(lol[v].value.(lowlink := b))];
    forall i, k' | from <= i < |stack| && stack[i] < |g| && 0 <= k' < |g[stack[i]]| ensures Ok(l, g[stack[i]][k'], b) {
      var x := g[stack[i]][k'];
      if i < |Sb| {
        assert stack[..|Sb|][i] == Sb[i];
        assert Ok(Lb, x, bv);
        OkTransfer(Lb, lol, x, bv, bv);
        OkTransfer(lol, l, x, bv, b);
      } else {
        OkTransfer(lol, l, x, bw, b);
      }
    }
  }

  /** After the last transition, when the lowlink of `v` is below its number: nothing is popped. */
  lemma NoPop(g: seq<seq<StateId>>, lol: Lol, stack: seq<StateId>, index: nat, next: nat,
              S0: seq<StateId>, L0: Lol, i0: nat, n0: nat, v: StateId)
    requires v < |g| && LoopInv(g, lol, stack, index, next, S0, L0, i0, n0, v, |g[v]|) && LowOf(lol, v) != i0
    ensures CallPost(g, lol, stack, index, next, S0, L0, i0, n0, v)
  {
    forall i, k | |S0| <= i < |stack| && stack[i] < |g| && 0 <= k < |g[stack[i]]| ensures Ok(lol, g[stack[i]][k], LowOf(lol, v)) {
      if i == |S0| { assert Ok(lol, g[v][k], LowOf(lol, v)); }
    }
    forall i | |S0| <= i < |stack|
      ensures LowOf(lol, stack[i]) < IdxOf(lol, stack[i]) && LowOf(lol, v) <= LowOf(lol, stack[i]) && Reaches(g, v, stack[i])
    {
      if i == |S0| { ReachRefl(g, v); }
    }
  }

  /** The records of the states of `seg` marked off the stack with SCC id `id`. */
  function Assign(lol: Lol, seg: seq<StateId>, id: nat): (r: Lol)
    ensures |r| == |lol|
    ensures forall s :: 0 <= s < |lol| ==>
      r[s] == if s in seg && lol[s].Some? then Some(lol[s].value.(onStack := false, scc := Some(id))) else lol[s]
  {
    seq(|lol|, s requires 0 <= s < |lol| =>
      if s in seg && lol[s].Some? then Some(lol[s].value.(onStack := false, scc := Some(id))) else lol[s])
  }

  /** The states `v` leaves on the stack are the ones marked on it and numbered from `i0` on. */
  lemma SegmentOnStack(g: seq<seq<StateId>>, lol: Lol, stack: seq<StateId>, index: nat, next: nat,
                       S0: seq<StateId>, L0: Lol, i0: nat, n0: nat, v: StateId, k: nat)
    requires LoopInv(g, lol, stack, index, next, S0, L0, i0, n0, v, k)
    ensures forall s :: s in stack[|S0|..] <==> OnStk(lol, s) && IdxOf(lol, s) >= i0
    ensures forall s :: s in S0 ==> OnStk(lol, s) && IdxOf(lol, s) < i0
  {
    forall s | s in stack[|S0|..] ensures OnStk(lol, s) && IdxOf(lol, s) >= i0 {
      var i :| 0 <= i < |stack[|S0|..]| && stack[|S0|..][i] == s;
      if i > 0 { assert IdxOf(lol, stack[|S0|]) < IdxOf(lol, stack[|S0| + i]); }
    }
    forall s | OnStk(lol, s) && IdxOf(lol, s) >= i0 ensures s in stack[|S0|..] {
      var j :| 0 <= j < |stack| && stack[j] == s;
      assert stack[|S0|..][j - |S0|] == s;
    }
    forall s | s in S0 ensures OnStk(lol, s) && IdxOf(lol, s) < i0 {
      var j :| 0 <= j < |S0| && S0[j] == s;
      assert stack[..|S0|][j] == stack[j];
      assert IdxOf(lol, stack[j]) < IdxOf(lol, stack[|S0|]);
    }
  }

  /** Marking states off the stack with an id keeps every record well numbered. */
  lemma AssignNumOk(lol: Lol, seg: seq<StateId>, id: nat, index: nat)
    requires NumOk(lol, index)
    ensures NumOk(Assign(lol, seg, id), index)
  {
    var A := Assign(lol, seg, id);
    forall s | Vis(A, s) ensures IdxOf(A, s) < index && LowOf(A, s) <= IdxOf(A, s) && (OnStk(A, s) <==> !Done(A, s)) {
      assert Vis(lol, s);
    }
  }

  /** Popping the states of `stack` above `S0` leaves `S0` as a well-formed stack. */
  lemma AssignStackOk(lol: Lol, stack: seq<StateId>, S0: seq<StateId>, i0: nat, id: nat)
    requires StackOk(lol, stack) && |stack| >= |S0| && stack[..|S0|] == S0
    requires forall s :: s in stack[|S0|..] <==> OnStk(lol, s) && IdxOf(lol, s) >= i0
    requires forall s :: s in S0 ==> OnStk(lol, s) && IdxOf(lol, s) < i0
    ensures StackOk(Assign(lol, stack[|S0|..], id), S0)
  {
    var seg := stack[|S0|..];
    var A := Assign(lol, seg, id);
    forall i | 0 <= i < |S0| ensures OnStk(A, S0[i]) && IdxOf(A, S0[i]) == IdxOf(lol, S0[i]) {
      assert S0[i] in S0;
    }
    forall s | OnStk(A, s) ensures s in S0 {
      assert OnStk(lol, s) && s !in seg;
      var j :| 0 <= j < |stack| && stack[j] == s;
      assert stack[..|S0|][j] == s;
    }
    forall i, j | 0 <= i < j < |S0| ensures IdxOf(A, S0[i]) < IdxOf(A, S0[j]) {
      assert stack[..|S0|][i] == stack[i] && stack[..|S0|][j] == stack[j];
    }
  }

  /**
   * Giving id `next` to a set of unfinished states closed under transitions
   * (each transition leads back into the set or to a completed state) keeps
   * ids ordered along transitions and puts `next` in use.
   */
  lemma AssignIdsOk(g: seq<seq<StateId>>, lol: Lol, seg: seq<StateId>, next: nat, v: StateId)
    requires IdsOk(g, lol, next) && v in seg
    requires forall s :: s in seg ==> Vis(lol, s) && !Done(lol, s)
    requires forall s, k :: s in seg && s < |g| && 0 <= k < |g[s]| ==> Done(lol, g[s][k]) || g[s][k] in seg
    ensures IdsOk(g, Assign(lol, seg, next), next + 1)
  {
    var A := Assign(lol, seg, next);
    assert forall s :: s in seg ==> Done(A, s) && SccOf(A, s) == next;
    assert forall s :: Done(lol, s) ==> s !in seg && A[s] == lol[s];
    forall s | Done(A, s) ensures SccOf(A, s) < next + 1 {
      if s !in seg { assert Done(lol, s); }
    }
    forall s, k | Done(A, s) && 0 <= k < |g[s]| ensures Done(A, g[s][k]) && SccOf(A, g[s][k]) <= SccOf(A, s) {
      if s !in seg { assert Done(lol, s); }
    }
    assert IdUsed(A, next) by {
      assert Done(A, v) && SccOf(A, v) == next;
    }
    UsedKept(lol, A, next);
  }

  /**
   * After the last transition, when the lowlink of `v` equals its number:
   * `v` and every state above it on the stack form a component, which gets
   * id `next`.
   */
  lemma Pop(g: seq<seq<StateId>>, lol: Lol, stack: seq<StateId>, index: nat, next: nat,
            S0: seq<StateId>, L0: Lol, i0: nat, n0: nat, v: StateId)
    requires v < |g| && LoopInv(g, lol, stack, index, next, S0, L0, i0, n0, v, |g[v]|) && LowOf(lol, v) == i0
    ensures CallPost(g, Assign(lol, stack[|S0|..], next), S0, index, next + 1, S0, L0, i0, n0, v)
  {
    var seg := stack[|S0|..];
    var A := Assign(lol, seg, next);
    SegmentOnStack(g, lol, stack, index, next, S0, L0, i0, n0, v, |g[v]|);
    AssignNumOk(lol, seg, next, index);
    AssignStackOk(lol, stack, S0, i0, next);
    assert v in seg by { assert seg[0] == v; }
    forall s, k | s in seg && s < |g| && 0 <= k < |g[s]| ensures Done(lol, g[s][k]) || g[s][k] in seg {
      assert Ok(lol, g[s][k], i0) by {
        var i :| 0 <= i < |seg| && seg[i] == s;
        assert stack[|S0| + i] == s;
        if i == 0 { assert Ok(lol, g[v][k], LowOf(lol, v)); }
      }
    }
    AssignIdsOk(g, lol, seg, next, v);
    SegMutual(g, lol, stack, |S0|, i0, v);
    AssignReachOk(g, lol, stack, S0, index, next, v);
    assert Keeps(L0, A) by {
      forall s | Vis(L0, s) ensures A[s] == L0[s] {
        assert s !in seg;
      }
    }
    if |S0| > 0 { assert S0[0] in S0; }
  }

  /** Popping one more state `w` from below the popped part of the stack. */
  lemma AssignStep(lol: Lol, seg: seq<StateId>, id: nat, w: StateId)
    requires w < |lol| && lol[w].Some? && w !in seg
    ensures Assign(lol, seg, id)[w] == lol[w]
    ensures var A := Assign(lol, seg, id);
            A[w := Some(A[w].value.(onStack := false).(scc := Some(id)))] == Assign(lol, [w] + seg, id)
  {
  }

  /** One round of the pop loop: the state at position `n` is marked, and it is `state` only at the bottom. */
  lemma PopStep(lol: Lol, stack: seq<StateId>, S0: seq<StateId>, n: nat, id: nat, state: StateId)
    requires StackOk(lol, stack) && |S0| <= n < |stack| && stack[|S0|] == state
    ensures stack[n] < |lol| && lol[stack[n]].Some? && Assign(lol, stack[n + 1..], id)[stack[n]] == lol[stack[n]]
    ensures var A := Assign(lol, stack[n + 1..], id);
            A[stack[n] := Some(A[stack[n]].value.(onStack := false).(scc := Some(id)))] == Assign(lol, stack[n..], id)
    ensures stack[n] == state <==> n == |S0|
  {
    var w := stack[n];
    assert OnStk(lol, w);
    assert w !in stack[n + 1..] by {
      forall j | n < j < |stack| ensures stack[j] != w {
        assert IdxOf(lol, stack[n]) < IdxOf(lol, stack[j]);
      }
    }
    AssignStep(lol, stack[n + 1..], id, w);
    assert stack[n..] == [w] + stack[n + 1..];
    if n > |S0| {
      assert IdxOf(lol, stack[|S0|]) < IdxOf(lol, stack[n]);
    }
  }

  /** The number of undiscovered states. */
  function Unvisited(lol: Lol): nat
  {
    if lol == [] then 0 else Unvisited(lol[..|lol| - 1]) + (if lol[|lol| - 1].None? then 1 else 0)
  }

  /** Discovering states never adds undiscovered ones; discovering `v` removes one. */
  lemma {:induction false} UnvisitedShrinks(a: Lol, b: Lol, v: int)
    requires |a| == |b| && forall s :: Vis(a, s) ==> Vis(b, s)
    ensures Unvisited(b) <= Unvisited(a)
    ensures 0 <= v < |a| && a[v].None? && b[v].Some? ==> Unvisited(b) < Unvisited(a)
    decreases |a|
  {
    if a != [] {
      var n := |a| - 1;
      forall s | Vis(a[..n], s) ensures Vis(b[..n], s) {
        assert a[..n][s] == a[s] && b[..n][s] == b[s];
        assert Vis(a, s);
      }
      UnvisitedShrinks(a[..n], b[..n], v);
      assert Unvisited(a) == Unvisited(a[..n]) + (if a[n].None? then 1 else 0);
      assert Unvisited(b) == Unvisited(b[..n]) + (if b[n].None? then 1 else 0);
      assert a[n].Some? ==> Vis(a, n);
      if 0 <= v < n {
        assert a[..n][v] == a[v] && b[..n][v] == b[v];
      }
    }
  }

  // ---------------------------------------------------------------------------
  // Reachability along the steps

  /** No state above position `p` of the stack is the state at `p`. */
  lemma StackAboveDistinct(lol: Lol, stack: seq<StateId>, p: nat)
    requires StackOk(lol, stack) && p < |stack|
    ensures forall i :: p < i < |stack| ==> stack[i] != stack[p]
  {
    forall i | p < i < |stack| ensures stack[i] != stack[p] {
      assert IdxOf(lol, stack[p]) < IdxOf(lol, stack[i]);
    }
  }

  /** After a child call: the caller's states above `v` and the child's, under the smaller lowlink. */
  lemma ChildAbove(g: seq<seq<StateId>>, Lb: Lol, Sb: seq<StateId>, lol: Lol, stack: seq<StateId>,
                   from: nat, v: StateId, w: StateId, b: nat)
    requires Above(g, Lb, Sb, from, v) && Above(g, lol, stack, |Sb|, w)
    requires Keeps(Lb, lol) && |stack| >= |Sb| && stack[..|Sb|] == Sb && from <= |Sb|
    requires forall i :: 0 <= i < |Sb| ==> Vis(Lb, Sb[i])
    requires forall i :: from <= i < |stack| ==> stack[i] != v
    requires v < |g| && w in g[v] && Vis(Lb, v) && b <= LowOf(Lb, v) && b <= LowOf(lol, w)
    ensures Above(g, lol[v := Some(lol[v].value.(lowlink := b))], stack, from, v)
  {
    var l := lol[v := Some(lol[v].value.(lowlink := b))];
    forall i | from <= i < |stack|
      ensures LowOf(l, stack[i]) < IdxOf(l, stack[i]) && LowOf(l, v) <= LowOf(l, stack[i]) && Reaches(g, v, stack[i])
    {
      if i < |Sb| {
        assert stack[..|Sb|][i] == Sb[i];
        assert Vis(Lb, Sb[i]);
      } else {
        ReachPrepend(g, v, w, stack[i]);
      }
    }
  }

  /** Pushing a newly discovered state whose lowlink is its own number keeps `ReachOk`. */
  lemma ReachPush(g: seq<seq<StateId>>, lol: Lol, stack: seq<StateId>, v: StateId, t: TempSccs)
    requires ReachOk(g, lol, stack) && StackOk(lol, stack) && v < |lol| && !Vis(lol, v)
    requires t.lowlink == t.index && t.scc.None?
    ensures ReachOk(g, lol[v := Some(t)], stack + [v])
  {
    var l, st := lol[v := Some(t)], stack + [v];
    forall i | 0 <= i < |st| ensures LowReached(g, l, st, i) {
      if i < |stack| {
        assert LowReached(g, lol, stack, i);
        var j :| 0 <= j < |stack| && IdxOf(lol, stack[j]) == LowOf(lol, stack[i]) && Reaches(g, stack[i], stack[j]);
        assert OnStk(lol, stack[i]) && OnStk(lol, stack[j]);
        assert st[j] == stack[j] && st[i] == stack[i];
      } else {
        ReachRefl(g, v);
        assert st[i] == v;
      }
    }
    forall s, u | Done(l, s) && Done(l, u) && SccOf(l, s) == SccOf(l, u) ensures Reaches(g, s, u) {
      assert Done(lol, s) && Done(lol, u);
    }
  }

  /** Lowering the lowlink of `v` to the number of a stack state it reaches keeps `ReachOk`. */
  lemma ReachSetLow(g: seq<seq<StateId>>, lol: Lol, stack: seq<StateId>, v: StateId, b: nat, j: nat)
    requires ReachOk(g, lol, stack) && StackOk(lol, stack) && OnStk(lol, v)
    requires b == LowOf(lol, v) || (j < |stack| && IdxOf(lol, stack[j]) == b && Reaches(g, v, stack[j]))
    ensures ReachOk(g, lol[v := Some(lol[v].value.(lowlink := b))], stack)
  {
    var l := lol[v := Some(lol[v].value.(lowlink := b))];
    forall i | 0 <= i < |stack| ensures LowReached(g, l, stack, i) {
      assert LowReached(g, lol, stack, i);
      var j' :| 0 <= j' < |stack| && IdxOf(lol, stack[j']) == LowOf(lol, stack[i]) && Reaches(g, stack[i], stack[j']);
      assert OnStk(lol, stack[j']) && OnStk(lol, stack[i]);
      if stack[i] == v && b != LowOf(lol, v) {
        assert OnStk(lol, stack[j]);
        assert IdxOf(l, stack[j]) == b;
      } else {
        assert IdxOf(l, stack[j']) == LowOf(l, stack[i]);
      }
    }
    forall s, u | Done(l, s) && Done(l, u) && SccOf(l, s) == SccOf(l, u) ensures Reaches(g, s, u) {
      assert Done(lol, s) && Done(lol, u);
    }
  }

  /** Lowering the lowlink of `v`, which is not among the positions from `from` on, keeps `Above`. */
  lemma AboveSetLow(g: seq<seq<StateId>>, lol: Lol, stack: seq<StateId>, from: nat, v: StateId, b: nat)
    requires Above(g, lol, stack, from, v) && v < |lol| && lol[v].Some? && b <= LowOf(lol, v)
    requires forall i :: from <= i < |stack| ==> stack[i] != v
    ensures Above(g, lol[v := Some(lol[v].value.(lowlink := b))], stack, from, v)
  {
  }

  /**
   * When the state at position `r` closes its component, every state above
   * it on the stack reaches it: each reaches the stack state its lowlink
   * numbers, which lies lower on the stack but not below `r`.
   */
  lemma SegReachesRoot(g: seq<seq<StateId>>, lol: Lol, stack: seq<StateId>, r: nat, i0: nat, i: nat)
    requires StackOk(lol, stack) && ReachOk(g, lol, stack)
    requires r <= i < |stack| && IdxOf(lol, stack[r]) == i0
    requires forall i' :: r < i' < |stack| ==> LowOf(lol, stack[i']) < IdxOf(lol, stack[i']) && i0 <= LowOf(lol, stack[i'])
    ensures Reaches(g, stack[i], stack[r])
    decreases i
  {
    if i == r {
      ReachRefl(g, stack[r]);
    } else {
      assert LowReached(g, lol, stack, i);
      var j :| 0 <= j < |stack| && IdxOf(lol, stack[j]) == LowOf(lol, stack[i]) && Reaches(g, stack[i], stack[j]);
      assert r <= j < i;
      SegReachesRoot(g, lol, stack, r, i0, j);
      ReachTrans(g, stack[i], stack[j], stack[r]);
    }
  }

  /** Popping a component whose states reach each other through `v` keeps `ReachOk` for the rest. */
  lemma AssignReachOk(g: seq<seq<StateId>>, lol: Lol, stack: seq<StateId>, S0: seq<StateId>, index: nat, next: nat, v: StateId)
    requires ReachOk(g, lol, stack) && StackOk(lol, stack) && NumOk(lol, index) && IdsOk(g, lol, next)
    requires |stack| > |S0| && stack[..|S0|] == S0
    requires forall s :: s in stack[|S0|..] ==> Reaches(g, s, v) && Reaches(g, v, s)
    ensures ReachOk(g, Assign(lol, stack[|S0|..], next), S0)
  {
    var seg := stack[|S0|..];
    var A := Assign(lol, seg, next);
    StackDistinctAll(lol, stack);
    forall i | 0 <= i < |S0| ensures LowReached(g, A, S0, i) {
      assert stack[..|S0|][i] == stack[i];
      assert LowReached(g, lol, stack, i);
      var j :| 0 <= j < |stack| && IdxOf(lol, stack[j]) == LowOf(lol, stack[i]) && Reaches(g, stack[i], stack[j]);
      assert OnStk(lol, stack[i]) && OnStk(lol, stack[j]);
      assert IdxOf(lol, stack[j]) <= IdxOf(lol, stack[i]);
      assert j <= i;
      assert stack[..|S0|][j] == stack[j];
      assert stack[i] !in seg && stack[j] !in seg;
    }
    forall s, u | Done(A, s) && Done(A, u) && SccOf(A, s) == SccOf(A, u) ensures Reaches(g, s, u) {
      if s in seg && u in seg {
        ReachTrans(g, s, v, u);
      } else if s !in seg && u !in seg {
        assert Done(lol, s) && Done(lol, u);
      } else if s in seg {
        assert Done(lol, u);
      } else {
        assert Done(lol, s);
      }
    }
  }

  /** The states from position `r` on reach `v`, at `r`, and are reached from it. */
  lemma SegMutual(g: seq<seq<StateId>>, lol: Lol, stack: seq<StateId>, r: nat, i0: nat, v: StateId)
    requires StackOk(lol, stack) && ReachOk(g, lol, stack)
    requires r < |stack| && stack[r] == v && IdxOf(lol, v) == i0 && LowOf(lol, v) == i0
    requires Above(g, lol, stack, r + 1, v)
    ensures forall s :: s in stack[r..] ==> Reaches(g, s, v) && Reaches(g, v, s)
  {
    forall s | s in stack[r..] ensures Reaches(g, s, v) && Reaches(g, v, s) {
      var i :| 0 <= i < |stack[r..]| && stack[r..][i] == s;
      assert stack[r + i] == s;
      SegReachesRoot(g, lol, stack, r, i0, r + i);
      if i == 0 { ReachRefl(g, v); }
    }
  }

  /** The stack holds no state twice. */
  lemma StackDistinctAll(lol: Lol, stack: seq<StateId>)
    requires StackOk(lol, stack)
    ensures forall i, j :: 0 <= i < j < |stack| ==> stack[i] != stack[j]
  {
    forall i, j | 0 <= i < j < |stack| ensures stack[i] != stack[j] {
      assert IdxOf(lol, stack[i]) < IdxOf(lol, stack[j]);
    }
  }

  /** `TarjanAlgorithm`: the graph, the counter, the stack, the records and the next SCC id. */
  class TarjanAlgorithm {
    var index: nat
    var stack: seq<StateId>
    var stateIdToLol: Lol
    const fst: seq<seq<StateId>>
    var nextSccId: nat

    ghost predicate Valid()
      reads this
    {
      Inv(fst, stateIdToLol, stack, index, nextSccId)
    }

    /** `new`: nothing numbered, nothing on the stack, no records. */
    constructor (g: seq<seq<StateId>>)
      ensures fst == g && index == 0 && stack == [] && stateIdToLol == [] && nextSccId == 0
    {
      fst := g;
      index := 0;
      stack := [];
      stateIdToLol := [];
      nextSccId := 0;
    }

    /**
     * `strongconnect`: numbers `state`, pushes it, examines its transitions
     * in order (recurring on undiscovered targets), and pops its component
     * when its lowlink is its own number.
     */
    method StrongConnect(state: StateId)
      requires Valid() && state < |fst| && !Vis(stateIdToLol, state)
      modifies this
      ensures CallPost(fst, stateIdToLol, stack, index, nextSccId, old(stack), old(stateIdToLol), old(index), old(nextSccId), state)
      decreases Unvisited(stateIdToLol), 1
    {
      ghost var S0, L0, i0, n0 := stack, stateIdToLol, index, nextSccId;
      LoopStart(fst, L0, S0, i0, n0, state);
      var lol := TempSccs(index, index, true, None);
      index := index + 1;
      stack := stack + [state];
      stateIdToLol := stateIdToLol[state := Some(lol)];
      var trs := fst[state];
      for k := 0 to |trs|
        invariant LoopInv(fst, stateIdToLol, stack, index, nextSccId, S0, L0, i0, n0, state, k)
      {
        VisitTr(state, k, S0, L0, i0, n0);
      }
      CloseComponent(state, S0, L0, i0, n0);
    }

    /**
     * The body of the loop of `strongconnect` for transition `k` of
     * `state`: recur on an undiscovered target and take the smaller
     * lowlink, or take the target's number when it is on the stack.
     */
    method VisitTr(state: StateId, k: nat, ghost S0: seq<StateId>, ghost L0: Lol, ghost i0: nat, ghost n0: nat)
      requires state < |fst| && k < |fst[state]|
      requires LoopInv(fst, stateIdToLol, stack, index, nextSccId, S0, L0, i0, n0, state, k)
      modifies this
      ensures LoopInv(fst, stateIdToLol, stack, index, nextSccId, S0, L0, i0, n0, state, k + 1)
      decreases Unvisited(L0), 0
    {
      var w := fst[state][k];
      if stateIdToLol[w].None? {
        ghost var Lb, Sb, ib, nb := stateIdToLol, stack, index, nextSccId;
        UnvisitedShrinks(L0, stateIdToLol, state);
        StrongConnect(w);
        LoopChild(fst, Lb, Sb, ib, nb, stateIdToLol, stack, index, nextSccId, S0, L0, i0, n0, state, k);
        var vLowlink := stateIdToLol[state].value.lowlink;
        var wLowlink := stateIdToLol[w].value.lowlink;
        stateIdToLol := stateIdToLol[state := Some(stateIdToLol[state].value.(lowlink := Min(vLowlink, wLowlink)))];
      } else {
        LoopBack(fst, stateIdToLol, stack, index, nextSccId, S0, L0, i0, n0, state, k);
        var wRec := stateIdToLol[w].value;
        if wRec.onStack {
          var vLowlink := stateIdToLol[state].value.lowlink;
          stateIdToLol := stateIdToLol[state := Some(stateIdToLol[state].value.(lowlink := Min(vLowlink, wRec.index)))];
        }
      }
    }

    /** The end of `strongconnect`: pop the component when `state` is its root. */
    method CloseComponent(state: StateId, ghost S0: seq<StateId>, ghost L0: Lol, ghost i0: nat, ghost n0: nat)
      requires state < |fst| && LoopInv(fst, stateIdToLol, stack, index, nextSccId, S0, L0, i0, n0, state, |fst[state]|)
      modifies this
      ensures CallPost(fst, stateIdToLol, stack, index, nextSccId, S0, L0, i0, n0, state)
    {
      var v := stateIdToLol[state].value;
      if v.lowlink == v.index {
        Pop(fst, stateIdToLol, stack, index, nextSccId, S0, L0, i0, n0, state);
        PopComponent(state, S0);
        nextSccId := nextSccId + 1;
      } else {
        NoPop(fst, stateIdToLol, stack, index, nextSccId, S0, L0, i0, n0, state);
      }
    }

    /** `compute`: one record slot per state, then `strongconnect` from every undiscovered state in order. */
    method Compute()
      requires Closed(fst) && index == 0 && stack == [] && stateIdToLol == [] && nextSccId == 0
      modifies this
      ensures Valid() && stack == [] && |stateIdToLol| == |fst|
      ensures forall s :: 0 <= s < |fst| ==> Done(stateIdToLol, s)
    {
      stateIdToLol := seq(|fst|, _ => None);
      for state := 0 to |fst|
        invariant Valid() && stack == [] && |stateIdToLol| == |fst|
        invariant forall s :: 0 <= s < state ==> Done(stateIdToLol, s)
      {
        if stateIdToLol[state].None? {
          ghost var L := stateIdToLol;
          StrongConnect(state);
          assert forall s :: Done(L, s) ==> Done(stateIdToLol, s);
        }
        assert Vis(stateIdToLol, state) && !OnStk(stateIdToLol, state);
      }
    }

    /** `get_scc`: the SCC id of every state. */
    function GetScc(): (sccs: seq<nat>)
      reads this
      requires forall s :: 0 <= s < |stateIdToLol| ==> Done(stateIdToLol, s)
      ensures |sccs| == |stateIdToLol| && forall s :: 0 <= s < |sccs| ==> sccs[s] == SccOf(stateIdToLol, s)
    {
      var l := stateIdToLol;
      seq(|l|, s requires 0 <= s < |l| => SccOf(l, s))
    }

    /** The pop loop of `strongconnect`: pops and marks states up to and including `state`. */
    method PopComponent(state: StateId, ghost S0: seq<StateId>)
      requires StackOk(stateIdToLol, stack) && |stack| > |S0| && stack[|S0|] == state
      modifies this
      ensures stack == old(stack)[..|S0|]
      ensures stateIdToLol == Assign(old(stateIdToLol), old(stack)[|S0|..], nextSccId)
      ensures index == old(index) && nextSccId == old(nextSccId)
    {
      ghost var lolA, st0 := stateIdToLol, stack;
      var done := false;
      while !done
        invariant |S0| <= |stack| <= |st0| && stack == st0[..|stack|]
        invariant done <==> |stack| == |S0|
        invariant stateIdToLol == Assign(lolA, st0[|stack|..], nextSccId)
        invariant index == old(index) && nextSccId == old(nextSccId)
        decreases |stack|
      {
        var n := |stack| - 1;
        var w := stack[n];
        PopStep(lolA, st0, S0, n, nextSccId, state);
        stack := stack[..n];
        stateIdToLol := stateIdToLol[w := Some(stateIdToLol[w].value.(onStack := false))];
        stateIdToLol := stateIdToLol[w := Some(stateIdToLol[w].value.(scc := Some(nextSccId)))];
        if w == state {
          done := true;
        }
      }
    }
  }

  // ---------------------------------------------------------------------------
  // find_strongly_connected_components

  /** Ids never increase along a transition. */
  predicate SccOrdered(g: seq<seq<StateId>>, sccs: seq<nat>)
  {
    |sccs| == |g| && forall s, k :: 0 <= s < |g| && 0 <= k < |g[s]| ==> g[s][k] < |g| && sccs[g[s][k]] <= sccs[s]
  }

  /** Some state has id `id`. */
  ghost predicate Used(sccs: seq<nat>, id: nat)
  {
    exists s :: 0 <= s < |sccs| && sccs[s] == id
  }

  /**
   * What a numbering of strongly connected components is: one id below `n`
   * per state, every id below `n` used, ids never increasing along a
   * transition, and two states sharing an id exactly when each reaches the
   * other.
   */
  ghost predicate IsSccNumbering(g: seq<seq<StateId>>, sccs: seq<nat>, n: nat)
  {
    && SccOrdered(g, sccs)
    && (forall s :: 0 <= s < |g| ==> sccs[s] < n)
    && (forall id :: 0 <= id < n ==> Used(sccs, id))
    && (forall s, t :: 0 <= s < |g| && 0 <= t < |g| ==>
          (sccs[s] == sccs[t] <==> Reaches(g, s, t) && Reaches(g, t, s)))
  }

  /** Along any walk the id never increases. */
  lemma {:induction false} WalkDescends(g: seq<seq<StateId>>, sccs: seq<nat>, s: StateId, p: seq<StateId>, t: StateId)
    requires SccOrdered(g, sccs) && s < |g| && Walk(g, s, p, t)
    ensures t < |g| && sccs[t] <= sccs[s]
    decreases |p|
  {
    if p != [] {
      var k :| 0 <= k < |g[s]| && g[s][k] == p[0];
      WalkDescends(g, sccs, p[0], p[1..], t);
    }
  }

  /** States on a common cycle share their id. */
  lemma CommonCycle(g: seq<seq<StateId>>, sccs: seq<nat>, s: StateId, t: StateId)
    requires SccOrdered(g, sccs) && s < |g| && t < |g| && Reaches(g, s, t) && Reaches(g, t, s)
    ensures sccs[s] == sccs[t]
  {
    var p :| Walk(g, s, p, t);
    var q :| Walk(g, t, q, s);
    WalkDescends(g, sccs, s, p, t);
    WalkDescends(g, sccs, t, q, s);
  }

  /**
   * `find_strongly_connected_components`: runs the algorithm from every
   * state in order and returns the id of each state and the number of ids.
   */
  method FindStronglyConnectedComponents<W>(states: seq<VectorFstState<W>>) returns (sccs: seq<nat>, nSccs: nat)
    requires TrsInRange(states)
    ensures |sccs| == |states|
    ensures IsSccNumbering(Targets(states), sccs, nSccs)
  {
    var g := Targets(states);
    var tarjan := new TarjanAlgorithm(g);
    tarjan.Compute();
    nSccs := tarjan.nextSccId;
    sccs := tarjan.GetScc();
    ghost var lol := tarjan.stateIdToLol;
    assert SccOrdered(g, sccs) by {
      forall s, k | 0 <= s < |g| && 0 <= k < |g[s]| ensures g[s][k] < |g| && sccs[g[s][k]] <= sccs[s] {
        assert Done(lol, s);
      }
    }
    forall s | 0 <= s < |g| ensures sccs[s] < nSccs {
      assert Done(lol, s);
    }
    forall id | 0 <= id < nSccs ensures Used(sccs, id) {
      assert IdUsed(lol, id);
      var s :| Done(lol, s) && SccOf(lol, s) == id;
      assert sccs[s] == id;
    }
    forall s, t | 0 <= s < |g| && 0 <= t < |g| ensures sccs[s] == sccs[t] <==> Reaches(g, s, t) && Reaches(g, t, s) {
      assert Done(lol, s) && Done(lol, t);
      if sccs[s] == sccs[t] {
        assert Reaches(g, s, t) && Reaches(g, t, s);
      }
      if Reaches(g, s, t) && Reaches(g, t, s) {
        CommonCycle(g, sccs, s, t);
      }
    }
  }

  /** The component numbered 0 is closed: nothing reachable from it has another id. */
  lemma ZeroIsSink(g: seq<seq<StateId>>, sccs: seq<nat>, n: nat, s: StateId, t: StateId)
    requires IsSccNumbering(g, sccs, n) && s < |g| && sccs[s] == 0 && Reaches(g, s, t)
    ensures t < |g| && sccs[t] == 0
  {
    var p :| Walk(g, s, p, t);
    WalkDescends(g, sccs, s, p, t);
  }

  /** A walk that starts in a set closed under transitions stays in it. */
  lemma {:induction false} WalkStays(g: seq<seq<StateId>>, S: set<StateId>, s: StateId, p: seq<StateId>, t: StateId)
    requires s in S && Walk(g, s, p, t)
    requires forall x, k :: x in S && x < |g| && 0 <= k < |g[x]| ==> g[x][k] in S
    ensures t in S
    decreases |p|
  {
    if p != [] {
      var k :| 0 <= k < |g[s]| && g[s][k] == p[0];
      WalkStays(g, S, p[0], p[1..], t);
    }
  }

  /** Nothing outside a closed set is reachable from inside it. */
  lemma Unreachable(g: seq<seq<StateId>>, S: set<StateId>, s: StateId, t: StateId)
    requires s in S && t !in S
    requires forall x, k :: x in S && x < |g| && 0 <= k < |g[x]| ==> g[x][k] in S
    ensures !Reaches(g, s, t)
  {
    if Reaches(g, s, t) {
      var p :| Walk(g, s, p, t);
      WalkStays(g, S, s, p, t);
    }
  }

  /** Three states given the ids 2, 1, 0 in that order use exactly three ids. */
  lemma ThreeIds(sccs: seq<nat>, n: nat, a: nat, b: nat, c: nat)
    requires a < |sccs| && b < |sccs| && c < |sccs| && sccs[c] < sccs[b] < sccs[a] < n
    requires forall s :: 0 <= s < |sccs| ==> s == a || s == b || s == c || sccs[s] == sccs[a]
    requires forall id :: 0 <= id < n ==> Used(sccs, id)
    ensures n == 3 && sccs[a] == 2 && sccs[b] == 1 && sccs[c] == 0
  {
    assert Used(sccs, 0);
    assert sccs[c] == 0;
    assert Used(sccs, 1);
    assert sccs[b] == 1;
    assert Used(sccs, 2);
    assert sccs[a] == 2;
    assert Used(sccs, n - 1);
  }

  /** The chain `0 -> 1 -> 2` of the first test: every state is its own component, the sink first. */
  lemma ChainExample(sccs: seq<nat>, n: nat)
    requires IsSccNumbering([[1], [2], []], sccs, n)
    ensures n == 3 && sccs == [2, 1, 0]
  {
    var g: seq<seq<StateId>> := [[1], [2], []];
    assert g[0][0] == 1 && g[1][0] == 2;
    Unreachable(g, {1, 2}, 1, 0);
    Unreachable(g, {2}, 2, 1);
    assert sccs[0] != sccs[1] && sccs[1] != sccs[2];
    ThreeIds(sccs, n, 0, 1, 2);
  }

  /**
   * The graph of the second test, `0 -> 2 -> 1 -> 0` and `0 -> 3 -> 4`:
   * the cycle is one component, numbered after `3` and `4`.
   */
  lemma CycleExample(sccs: seq<nat>, n: nat)
    requires IsSccNumbering([[2, 3], [0], [1], [4], []], sccs, n)
    ensures n == 3 && sccs == [2, 2, 2, 1, 0]
  {
    var g: seq<seq<StateId>> := [[2, 3], [0], [1], [4], []];
    assert g[0][0] == 2 && g[0][1] == 3 && g[1][0] == 0 && g[2][0] == 1 && g[3][0] == 4;
    assert Walk(g, 0, [2, 1], 1) by {
      assert [2, 1][1..] == [1] && [1][1..] == [];
    }
    assert Walk(g, 1, [0, 2], 2) by {
      assert [0, 2][1..] == [2] && [2][1..] == [];
    }
    assert Walk(g, 2, [1], 1) && Walk(g, 1, [0], 0) by {
      assert [1][1..] == [] && [0][1..] == [];
    }
    assert Reaches(g, 0, 1) && Reaches(g, 1, 2) && Reaches(g, 2, 1) && Reaches(g, 1, 0);
    assert sccs[0] == sccs[1] == sccs[2];
    Unreachable(g, {3, 4}, 3, 0);
    Unreachable(g, {4}, 4, 3);
    assert sccs[0] != sccs[3] && sccs[3] != sccs[4];
    ThreeIds(sccs, n, 0, 3, 4);
  }
}
