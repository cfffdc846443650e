/**
 * The facts behind `connect`'s visitor, on values: what the colours and
 * the marks of `dfs_visit` and `SccVisitor` mean against the Tarjan records
 * of `Dfs`, and the lemmas that carry them across each step of the visit.
 */
module ConnectMarks {
  import opened Wrappers
  import opened FstTypes
  import opened Dfs
  import DeprecatedDfs

  /** `DfsStateColor`: undiscovered, discovered but unfinished, finished. */
  datatype Color = White | Grey | Black

  // ---------------------------------------------------------------------------
  // What the visitor's vectors mean

  /**
   * The visitor's vectors hold the records of `lol`: `dfnumber` is -1 for
   * an undiscovered state, and otherwise the number, the lowlink and the
   * stack flag are those of the record.
   */
  ghost predicate Coupled(lol: Lol, dfnumber: seq<int>, lowlink: seq<int>, onstack: seq<bool>)
  {
    && |dfnumber| == |lol| && |lowlink| == |lol| && |onstack| == |lol|
    && forall s :: 0 <= s < |lol| ==>
         && (lol[s].None? ==> dfnumber[s] == -1)
         && (lol[s].Some? ==> dfnumber[s] == lol[s].value.index && lowlink[s] == lol[s].value.lowlink
                              && onstack[s] == lol[s].value.onStack)
  }

  /** A state is white exactly while it is undiscovered. */
  predicate ColorsOk(lol: Lol, color: seq<Color>)
  {
    |color| == |lol| && forall s :: 0 <= s < |lol| ==> (color[s] == White <==> lol[s].None?)
  }

  /** Grey states are on the component stack. */
  ghost predicate GreyOnStack(lol: Lol, color: seq<Color>)
  {
    forall s :: 0 <= s < |color| && color[s] == Grey ==> OnStk(lol, s)
  }

  /** `s` reaches a final state. */
  ghost predicate CoAccessible<W>(states: seq<VectorFstState<W>>, s: StateId)
  {
    DeprecatedDfs.CoAccessible(states, s)
  }

  /** `s` is reachable from the start state. */
  ghost predicate Accessible<W>(states: seq<VectorFstState<W>>, start: Option<StateId>, s: StateId)
  {
    start.Some? && Reaches(Targets(states), start.value, s)
  }

  /** Every state marked coaccessible reaches a final state. */
  ghost predicate CoSound<W>(states: seq<VectorFstState<W>>, co: seq<bool>)
  {
    |co| == |states| && forall s :: 0 <= s < |co| && co[s] ==> CoAccessible(states, s)
  }

  /** Every completed state that reaches a final state is marked coaccessible. */
  ghost predicate CoDone<W>(states: seq<VectorFstState<W>>, lol: Lol, co: seq<bool>)
  {
    |co| == |lol| && forall s :: Done(lol, s) && CoAccessible(states, s) ==> co[s]
  }

  /** Of the first `k` transitions of `u`, each to a completed coaccessible state has marked `u`. */
  ghost predicate PropK(g: seq<seq<StateId>>, lol: Lol, co: seq<bool>, u: StateId, k: nat)
  {
    && |co| == |lol| && u < |g| && u < |co| && k <= |g[u]|
    && forall j :: 0 <= j < k && Done(lol, g[u][j]) && co[g[u][j]] ==> co[u]
  }

  /** `u` is finished: marked if final, and marked through each of its transitions to a completed marked state. */
  ghost predicate Prop<W>(states: seq<VectorFstState<W>>, g: seq<seq<StateId>>, lol: Lol, co: seq<bool>, u: StateId)
  {
    u < |g| && u < |states| && PropK(g, lol, co, u, |g[u]|) && (DeprecatedDfs.IsFinal(states, u) ==> co[u])
  }

  /** The states of the stack from position `from` on are finished. */
  ghost predicate Finished<W>(states: seq<VectorFstState<W>>, g: seq<seq<StateId>>, lol: Lol, co: seq<bool>,
                              stack: seq<StateId>, from: nat)
  {
    forall i :: from <= i < |stack| ==> Prop(states, g, lol, co, stack[i])
  }

  /**
   * From `L0`/`co0` to `lol`/`co`, a state discovered in `L0` keeps its
   * mark, and it is completed and marked only if it already was.
   */
  ghost predicate Settled(L0: Lol, co0: seq<bool>, lol: Lol, co: seq<bool>)
  {
    && |lol| == |L0| && |co| == |co0| && |co0| == |L0|
    && forall x :: Vis(L0, x) ==> (co0[x] ==> co[x]) && (Done(lol, x) && co[x] ==> Done(L0, x) && co0[x])
  }

  /** `x` was discovered between `L0` and `lol`. */
  predicate New(L0: Lol, lol: Lol, x: int)
  {
    Vis(lol, x) && !Vis(L0, x)
  }

  /**
   * Only states discovered between `L0` and `lol` changed marks or colour;
   * they are black, except `v`, whose colour is `cv`.
   */
  ghost predicate Confined(L0: Lol, lol: Lol, co0: seq<bool>, co: seq<bool>, acc0: seq<bool>, acc: seq<bool>,
                           col0: seq<Color>, col: seq<Color>, v: StateId, cv: Color)
  {
    && |lol| == |L0| && |co0| == |L0| && |co| == |L0| && |acc0| == |L0| && |acc| == |L0| && |col0| == |L0| && |col| == |L0|
    && forall x :: 0 <= x < |lol| ==>
         if New(L0, lol, x) then col[x] == (if x == v then cv else Black)
         else co[x] == co0[x] && acc[x] == acc0[x] && col[x] == col0[x]
  }

  /** The states discovered between `L0` and `lol` are reached from `v` and marked accessible iff `a`. */
  ghost predicate NewReached(g: seq<seq<StateId>>, L0: Lol, lol: Lol, acc: seq<bool>, v: StateId, a: bool)
  {
    |acc| == |lol| && forall x :: New(L0, lol, x) ==> Reaches(g, v, x) && acc[x] == a
  }

  /** The transitions of the states of `T` stay in `T` or lead to completed states. */
  ghost predicate SegmentClosed(g: seq<seq<StateId>>, lol: Lol, T: seq<StateId>)
  {
    forall x, j :: x in T && x < |g| && 0 <= j < |g[x]| ==> g[x][j] in T || Done(lol, g[x][j])
  }

  /** The marks `co` with every state of `seg` marked too when `b`. */
  function MarkAll(co: seq<bool>, b: bool, seg: seq<StateId>): (r: seq<bool>)
    ensures |r| == |co| && forall x :: 0 <= x < |co| ==> r[x] == (co[x] || (b && x in seg))
  {
    seq(|co|, x requires 0 <= x < |co| => co[x] || (b && x in seg))
  }

  /** Marking one more popped state, at position `n` of `st`, when `b`. */
  lemma MarkStep(co: seq<bool>, b: bool, st: seq<StateId>, n: nat)
    requires n < |st| && st[n] < |co|
    ensures MarkAll(co, b, st[n..]) == if b then MarkAll(co, b, st[n + 1..])[st[n] := true] else MarkAll(co, b, st[n + 1..])
  {
    assert st[n..] == [st[n]] + st[n + 1..];
  }

  /** The stack flags `on` with every state of `seg` cleared. */
  function ClearAll(on: seq<bool>, seg: seq<StateId>): (r: seq<bool>)
    ensures |r| == |on| && forall x :: 0 <= x < |on| ==> r[x] == (on[x] && x !in seg)
  {
    seq(|on|, x requires 0 <= x < |on| => on[x] && x !in seg)
  }

  /** Clearing one more popped state, at position `n` of `st`. */
  lemma ClearStep(on: seq<bool>, st: seq<StateId>, n: nat)
    requires n < |st| && st[n] < |on|
    ensures ClearAll(on, st[n..]) == ClearAll(on, st[n + 1..])[st[n] := false]
  {
    assert st[n..] == [st[n]] + st[n + 1..];
  }

  /** The stack holds `s` at position `r` only. */
  lemma StackPos(lol: Lol, stack: seq<StateId>, r: nat, n: nat, s: StateId)
    requires StackOk(lol, stack) && r <= n < |stack| && stack[r] == s
    ensures stack[n] == s <==> n == r
  {
    if n > r {
      assert IdxOf(lol, stack[r]) < IdxOf(lol, stack[n]);
    }
  }

  /**
   * Completing the states of the stack from position `r` on in the records
   * while clearing their stack flags keeps records and vectors coupled.
   */
  lemma CoupledPop(lol: Lol, dfnumber: seq<int>, lowlink: seq<int>, onstack: seq<bool>, stack: seq<StateId>, r: nat, id: nat)
    requires Coupled(lol, dfnumber, lowlink, onstack) && StackOk(lol, stack) && r <= |stack|
    ensures Coupled(Assign(lol, stack[r..], id), dfnumber, lowlink, ClearAll(onstack, stack[r..]))
  {
    forall x | x in stack[r..] ensures Vis(lol, x) {
      var i :| 0 <= i < |stack[r..]| && stack[r..][i] == x;
      assert OnStk(lol, stack[r + i]);
    }
  }

  /**
   * Popping in progress: the stack is a prefix of `st0`, and the states
   * above it have their flags cleared and, when `b`, are marked.
   */
  ghost predicate Popping(st0: seq<StateId>, on0: seq<bool>, co0: seq<bool>, b: bool,
                          stack: seq<StateId>, on: seq<bool>, co: seq<bool>)
  {
    && |stack| <= |st0| && stack == st0[..|stack|]
    && on == ClearAll(on0, st0[|stack|..]) && co == MarkAll(co0, b, st0[|stack|..])
  }

  /** Nothing discovered: the Tarjan invariant holds with an empty stack. */
  lemma EmptyInv(g: seq<seq<StateId>>)
    requires Closed(g)
    ensures Inv(g, seq(|g|, _ => None), [], 0, 0)
  {
    var lol: Lol := seq(|g|, _ => None);
    assert forall s :: !Vis(lol, s);
  }

  // ---------------------------------------------------------------------------
  // Lemmas about the marks

  /** A state with a transition to a state reaching a final state reaches one too. */
  lemma CoPrepend<W>(states: seq<VectorFstState<W>>, s: StateId, t: StateId)
    requires s < |states| && t in Targets(states)[s] && CoAccessible(states, t)
    ensures CoAccessible(states, s)
  {
    var f: StateId :| f < |states| && DeprecatedDfs.IsFinal(states, f) && Reaches(Targets(states), t, f);
    ReachPrepend(Targets(states), s, t, f);
  }

  /** A state reaching a state that reaches a final state reaches one too. */
  lemma CoReach<W>(states: seq<VectorFstState<W>>, s: StateId, t: StateId)
    requires Reaches(Targets(states), s, t) && CoAccessible(states, t)
    ensures CoAccessible(states, s)
  {
    var f: StateId :| f < |states| && DeprecatedDfs.IsFinal(states, f) && Reaches(Targets(states), t, f);
    ReachTrans(Targets(states), s, t, f);
  }

  /** A final state is coaccessible. */
  lemma CoFinal<W>(states: seq<VectorFstState<W>>, s: StateId)
    requires s < |states| && DeprecatedDfs.IsFinal(states, s)
    ensures CoAccessible(states, s)
  {
    ReachRefl(Targets(states), s);
  }

  /** Finished states stay finished while the states their transitions lead to are settled. */
  lemma FinishedMono<W>(states: seq<VectorFstState<W>>, g: seq<seq<StateId>>, L0: Lol, co0: seq<bool>,
                        lol: Lol, co: seq<bool>, stack: seq<StateId>, from: nat)
    requires Finished(states, g, L0, co0, stack, from) && Settled(L0, co0, lol, co)
    requires forall i :: from <= i < |stack| ==> Vis(L0, stack[i])
    requires Closure(g, L0, stack, from, 0)
    ensures Finished(states, g, lol, co, stack, from)
  {
    forall i | from <= i < |stack| ensures Prop(states, g, lol, co, stack[i]) {
      var u := stack[i];
      forall j | 0 <= j < |g[u]| && Done(lol, g[u][j]) && co[g[u][j]] ensures co[u] {
        assert Dfs.Ok(L0, g[u][j], 0);
      }
    }
  }

  /**
   * The walk induction behind the component scan: in a component `T` whose
   * states are finished and whose transitions stay in `T` or lead to
   * completed states, a state of `T` reaching a final state makes some
   * state of `T` marked.
   */
  lemma {:induction false} SegmentMarked<W>(states: seq<VectorFstState<W>>, g: seq<seq<StateId>>, lol: Lol, co: seq<bool>,
                                            T: seq<StateId>, u: StateId, p: seq<StateId>, f: StateId)
    requires g == Targets(states) && |co| == |lol| && |lol| == |states|
    requires u in T && Walk(g, u, p, f) && f < |states| && DeprecatedDfs.IsFinal(states, f)
    requires forall x :: x in T ==> Prop(states, g, lol, co, x)
    requires SegmentClosed(g, lol, T)
    requires CoDone(states, lol, co)
    ensures exists w :: w in T && w < |co| && co[w]
    decreases |p|
  {
    assert Prop(states, g, lol, co, u);
    if p == [] {
      assert co[u];
    } else {
      var t := p[0];
      var j :| 0 <= j < |g[u]| && g[u][j] == t;
      if t in T {
        SegmentMarked(states, g, lol, co, T, t, p[1..], f);
      } else {
        assert Reaches(g, t, f);
        assert co[t];
        assert co[u];
      }
    }
  }

  /**
   * Popping the component `T`: when `b` says whether some state of `T` is
   * marked and every state of `T` takes that mark, the marks stay sound and
   * every state of `T` reaching a final state is marked.
   */
  lemma PopMarks<W>(states: seq<VectorFstState<W>>, g: seq<seq<StateId>>, lol: Lol, co: seq<bool>, T: seq<StateId>,
                    b: bool, co': seq<bool>)
    requires g == Targets(states) && |co| == |lol| && |lol| == |states|
    requires forall x :: x in T ==> Prop(states, g, lol, co, x)
    requires SegmentClosed(g, lol, T)
    requires forall x, w :: x in T && w in T ==> Reaches(g, x, w)
    requires CoSound(states, co) && CoDone(states, lol, co)
    requires b <==> exists w :: w in T && w < |co| && co[w]
    requires co' == MarkAll(co, b, T)
    ensures CoSound(states, co')
    ensures forall x :: (x in T || Done(lol, x)) && CoAccessible(states, x) ==> co'[x]
  {
    forall x | 0 <= x < |co'| && co'[x] ensures CoAccessible(states, x) {
      if !co[x] {
        var w :| w in T && w < |co| && co[w];
        CoReach(states, x, w);
      }
    }
    forall x | x in T && CoAccessible(states, x) ensures co'[x] {
      var f: StateId :| f < |states| && DeprecatedDfs.IsFinal(states, f) && Reaches(Targets(states), x, f);
      var p :| Walk(g, x, p, f);
      SegmentMarked(states, g, lol, co, T, x, p, f);
    }
  }

  /** The first `k` transitions of `u` stay propagated while the states they lead to are settled. */
  lemma PropKMono(g: seq<seq<StateId>>, L0: Lol, co0: seq<bool>, lol: Lol, co: seq<bool>, u: StateId, k: nat)
    requires PropK(g, L0, co0, u, k) && Settled(L0, co0, lol, co) && Vis(L0, u)
    requires forall j :: 0 <= j < k ==> Vis(L0, g[u][j])
    ensures PropK(g, lol, co, u, k)
  {
  }

  /** Two finished parts of a stack, the lower one a prefix, make a finished stack. */
  lemma FinishedJoin<W>(states: seq<VectorFstState<W>>, g: seq<seq<StateId>>, lol: Lol, co: seq<bool>,
                        low: seq<StateId>, stack: seq<StateId>, from: nat)
    requires |low| <= |stack| && stack[..|low|] == low
    requires Finished(states, g, lol, co, low, from) && Finished(states, g, lol, co, stack, |low|)
    ensures Finished(states, g, lol, co, stack, from)
  {
    forall i | from <= i < |stack| ensures Prop(states, g, lol, co, stack[i]) {
      if i < |low| { assert stack[i] == low[i]; }
    }
  }

  /**
   * Grey states stay on the stack: those grey when `L0` was current were on
   * it and kept their records, and the only new one that can be grey is
   * `v`, which is on it.
   */
  lemma GreyKept(L0: Lol, lol: Lol, co0: seq<bool>, co: seq<bool>, acc0: seq<bool>, acc: seq<bool>,
                 col0: seq<Color>, col: seq<Color>, v: StateId, cv: Color)
    requires GreyOnStack(L0, col0) && Keeps(L0, lol) && Confined(L0, lol, co0, co, acc0, acc, col0, col, v, cv)
    requires cv == Grey ==> OnStk(lol, v)
    requires forall x :: 0 <= x < |col0| && col0[x] != White ==> Vis(L0, x)
    ensures GreyOnStack(lol, col)
  {
    forall x | 0 <= x < |col| && col[x] == Grey ensures OnStk(lol, x) {
      if !New(L0, lol, x) {
        assert col0[x] == Grey;
        assert OnStk(L0, x);
      }
    }
  }

  /** Popping the component `T` with id `id` completes its states; their transitions stay in it or lead to completed states. */
  lemma AssignClosed(g: seq<seq<StateId>>, lol: Lol, T: seq<StateId>, id: nat, next: nat)
    requires IdsOk(g, Assign(lol, T, id), next) && forall x :: x in T ==> Vis(lol, x)
    ensures SegmentClosed(g, lol, T)
    ensures forall x :: Done(Assign(lol, T, id), x) ==> x in T || Done(lol, x)
  {
    var A := Assign(lol, T, id);
    forall x, j | x in T && x < |g| && 0 <= j < |g[x]| ensures g[x][j] in T || Done(lol, g[x][j]) {
      assert Done(A, x);
      assert Done(A, g[x][j]);
    }
  }

  /** With the stack empty, every discovered state is completed. */
  lemma EmptyStackDone(g: seq<seq<StateId>>, lol: Lol, index: nat, next: nat)
    requires Inv(g, lol, [], index, next)
    ensures forall x :: Vis(lol, x) ==> Done(lol, x)
  {
  }

  /** With the stack empty, nothing undiscovered is reachable from a discovered state. */
  lemma EmptyStackClosed(g: seq<seq<StateId>>, lol: Lol, index: nat, next: nat, s: StateId, t: StateId)
    requires Inv(g, lol, [], index, next) && Vis(lol, s) && Reaches(g, s, t) && t < |g|
    ensures Vis(lol, t)
  {
    var S := set x | 0 <= x < |lol| && Done(lol, x);
    forall x, k | x in S && x < |g| && 0 <= k < |g[x]| ensures g[x][k] in S {
      assert Done(lol, g[x][k]);
    }
    if !Vis(lol, t) {
      Unreachable(g, S, s, t);
    }
  }

  /** Nothing is reached from a state outside the graph. */
  lemma ReachInside(g: seq<seq<StateId>>, s: StateId, t: StateId)
    requires Reaches(g, s, t) && t < |g|
    ensures s < |g|
  {
    var p :| Walk(g, s, p, t);
  }

  /**
   * `finish_state` marks `s`, on the stack at position `from`, when it is
   * final: then the stack from `from` on is finished and the marks stay
   * sound and complete on the completed states.
   */
  lemma FinalMark<W>(states: seq<VectorFstState<W>>, g: seq<seq<StateId>>, lol: Lol, co: seq<bool>, co': seq<bool>,
                     stack: seq<StateId>, from: nat, s: StateId)
    requires g == Targets(states) && s < |states| && !Done(lol, s) && |co| == |lol|
    requires from < |stack| && stack[from] == s
    requires Finished(states, g, lol, co, stack, from + 1) && PropK(g, lol, co, s, |g[s]|)
    requires CoSound(states, co) && CoDone(states, lol, co)
    requires co' == if DeprecatedDfs.IsFinal(states, s) then co[s := true] else co
    ensures Finished(states, g, lol, co', stack, from) && CoSound(states, co') && CoDone(states, lol, co')
  {
    if DeprecatedDfs.IsFinal(states, s) {
      CoFinal(states, s);
    }
    forall i | from <= i < |stack| ensures Prop(states, g, lol, co', stack[i]) {
      var u := stack[i];
      assert Prop(states, g, lol, co, u) || u == s;
      forall j | 0 <= j < |g[u]| && Done(lol, g[u][j]) && co'[g[u][j]] ensures co'[u] {
        assert g[u][j] != s;
      }
    }
  }

  /** With `s` at position `r` of a well-formed stack, `s` appears there only, and every state of the stack is below `n`. */
  lemma PopReady(lol: Lol, stack: seq<StateId>, r: nat, s: StateId, n: nat)
    requires StackOk(lol, stack) && r < |stack| && stack[r] == s && |lol| == n
    ensures forall i :: r < i < |stack| ==> stack[i] != s
    ensures forall i :: 0 <= i < |stack| ==> stack[i] < n
  {
    forall i | r < i < |stack| ensures stack[i] != s {
      StackPos(lol, stack, r, i, s);
    }
  }

  /**
   * Closing the component of `v`, the states it left on the stack above
   * `S0`: when `b` says whether one of them is marked and all take that
   * mark, `v` meets its call's postcondition and the marks stay sound and
   * complete on the completed states.
   */
  lemma PopFacts<W>(states: seq<VectorFstState<W>>, g: seq<seq<StateId>>, lol: Lol, stack: seq<StateId>, index: nat, next: nat,
                    S0: seq<StateId>, L0: Lol, i0: nat, n0: nat, v: StateId, co: seq<bool>, b: bool)
    requires g == Targets(states) && v < |g| && LoopInv(g, lol, stack, index, next, S0, L0, i0, n0, v, |g[v]|)
    requires LowOf(lol, v) == i0 && |co| == |lol|
    requires Finished(states, g, lol, co, stack, |S0|) && CoSound(states, co) && CoDone(states, lol, co)
    requires b <==> exists w :: w in stack[|S0|..] && w < |co| && co[w]
    ensures CallPost(g, Assign(lol, stack[|S0|..], next), S0, index, next + 1, S0, L0, i0, n0, v)
    ensures CoSound(states, MarkAll(co, b, stack[|S0|..]))
    ensures CoDone(states, Assign(lol, stack[|S0|..], next), MarkAll(co, b, stack[|S0|..]))
  {
    var T := stack[|S0|..];
    var A := Assign(lol, T, next);
    Pop(g, lol, stack, index, next, S0, L0, i0, n0, v);
    forall x | x in T ensures Vis(lol, x) && Prop(states, g, lol, co, x) {
      var i :| 0 <= i < |T| && T[i] == x;
      assert stack[|S0| + i] == x;
    }
    AssignClosed(g, lol, T, next, next + 1);
    SegMutual(g, lol, stack, |S0|, i0, v);
    forall x, w | x in T && w in T ensures Reaches(g, x, w) {
      ReachTrans(g, x, v, w);
    }
    PopMarks(states, g, lol, co, T, b, MarkAll(co, b, T));
  }

  /**
   * Changing only the marks of states discovered since `L0`, and no
   * discovery, keeps what `Confined` and `NewReached` say.
   */
  lemma Remarked(g: seq<seq<StateId>>, L0: Lol, lol: Lol, lol': Lol, co0: seq<bool>, co: seq<bool>, co': seq<bool>,
                 acc0: seq<bool>, acc: seq<bool>, col0: seq<Color>, col: seq<Color>, v: StateId, cv: Color, a: bool)
    requires Confined(L0, lol, co0, co, acc0, acc, col0, col, v, cv) && NewReached(g, L0, lol, acc, v, a)
    requires |lol'| == |lol| && (forall x :: Vis(lol', x) <==> Vis(lol, x))
    requires |co'| == |co| && forall x :: 0 <= x < |co| && !New(L0, lol, x) ==> co'[x] == co[x]
    ensures Confined(L0, lol', co0, co', acc0, acc, col0, col, v, cv) && NewReached(g, L0, lol', acc, v, a)
  {
    assert forall x :: New(L0, lol', x) <==> New(L0, lol, x);
  }

  /** The records and marks of a visitor: the Tarjan invariant, and marks sound, and complete on completed states. */
  ghost predicate Marks<W>(states: seq<VectorFstState<W>>, g: seq<seq<StateId>>, lol: Lol, stack: seq<StateId>,
                           index: nat, next: nat, acc: seq<bool>, co: seq<bool>)
  {
    && g == Targets(states) && Inv(g, lol, stack, index, next)
    && |acc| == |lol| && CoSound(states, co) && CoDone(states, lol, co)
  }

  /**
   * What the visit of `v` leaves, against the state before it (`S0`, `L0`,
   * `i0`, `n0`, marks `co0`, accessibility `acc0`, colours `col0`): the
   * Tarjan postcondition, the states it left on the stack finished, and
   * only the states it discovered changed, all reached from `v`, black
   * and marked accessible iff `a`.
   */
  ghost predicate Visited<W>(states: seq<VectorFstState<W>>, g: seq<seq<StateId>>, lol: Lol, stack: seq<StateId>,
                             index: nat, next: nat, acc: seq<bool>, co: seq<bool>, col: seq<Color>,
                             S0: seq<StateId>, L0: Lol, i0: nat, n0: nat, co0: seq<bool>, acc0: seq<bool>, col0: seq<Color>,
                             v: StateId, a: bool)
  {
    && Marks(states, g, lol, stack, index, next, acc, co)
    && CallPost(g, lol, stack, index, next, S0, L0, i0, n0, v)
    && Finished(states, g, lol, co, stack, |S0|)
    && Confined(L0, lol, co0, co, acc0, acc, col0, col, v, Black)
    && NewReached(g, L0, lol, acc, v, a)
  }

  /** Every transition of `v` examined and `v` black: the state `finish_state` starts from, with `v` finished from position `from` on. */
  ghost predicate Finishing<W>(states: seq<VectorFstState<W>>, g: seq<seq<StateId>>, lol: Lol, stack: seq<StateId>,
                               index: nat, next: nat, acc: seq<bool>, co: seq<bool>, col: seq<Color>,
                               S0: seq<StateId>, L0: Lol, i0: nat, n0: nat, co0: seq<bool>, acc0: seq<bool>, col0: seq<Color>,
                               v: StateId, a: bool, from: nat)
  {
    && Marks(states, g, lol, stack, index, next, acc, co)
    && v < |g| && LoopInv(g, lol, stack, index, next, S0, L0, i0, n0, v, |g[v]|)
    && Finished(states, g, lol, co, stack, from)
    && Confined(L0, lol, co0, co, acc0, acc, col0, col, v, Black)
    && NewReached(g, L0, lol, acc, v, a)
  }

  /**
   * Marking `v` when final finishes it: the stack is then finished from
   * the position of `v` on, and if `v` does not root a component, its
   * visit is complete.
   */
  lemma FinishMark<W>(states: seq<VectorFstState<W>>, g: seq<seq<StateId>>, lol: Lol, stack: seq<StateId>,
                      index: nat, next: nat, acc: seq<bool>, co: seq<bool>, col: seq<Color>,
                      S0: seq<StateId>, L0: Lol, i0: nat, n0: nat, co0: seq<bool>, acc0: seq<bool>, col0: seq<Color>,
                      v: StateId, a: bool, co': seq<bool>)
    requires Finishing(states, g, lol, stack, index, next, acc, co, col, S0, L0, i0, n0, co0, acc0, col0, v, a, |S0| + 1)
    requires PropK(g, lol, co, v, |g[v]|)
    requires co' == if DeprecatedDfs.IsFinal(states, v) then co[v := true] else co
    ensures Finishing(states, g, lol, stack, index, next, acc, co', col, S0, L0, i0, n0, co0, acc0, col0, v, a, |S0|)
    ensures LowOf(lol, v) != i0 ==> Visited(states, g, lol, stack, index, next, acc, co', col, S0, L0, i0, n0, co0, acc0, col0, v, a)
  {
    FinalMark(states, g, lol, co, co', stack, |S0|, v);
    Remarked(g, L0, lol, lol, co0, co, co', acc0, acc, col0, col, v, Black, a);
    if LowOf(lol, v) != i0 {
      NoPop(g, lol, stack, index, next, S0, L0, i0, n0, v);
    }
  }

  /**
   * Popping the component of `v`, the states above `S0`, with the mark `b`
   * that says whether one of them is marked, completes the visit of `v`:
   * from the state before the pop to the state after it (primed).
   */
  lemma CloseFacts<W>(states: seq<VectorFstState<W>>, g: seq<seq<StateId>>, lol: Lol, stack: seq<StateId>,
                      index: nat, next: nat, acc: seq<bool>, co: seq<bool>, col: seq<Color>,
                      S0: seq<StateId>, L0: Lol, i0: nat, n0: nat, co0: seq<bool>, acc0: seq<bool>, col0: seq<Color>,
                      v: StateId, a: bool, b: bool,
                      lol': Lol, stack': seq<StateId>, index': nat, next': nat, acc': seq<bool>, co': seq<bool>, col': seq<Color>)
    requires Finishing(states, g, lol, stack, index, next, acc, co, col, S0, L0, i0, n0, co0, acc0, col0, v, a, |S0|)
    requires LowOf(lol, v) == i0
    requires b <==> exists w :: w in stack[|S0|..] && w < |co| && co[w]
    requires lol' == Assign(lol, stack[|S0|..], next) && stack' == stack[..|S0|] && co' == MarkAll(co, b, stack[|S0|..])
    requires index' == index && next' == next + 1 && acc' == acc && col' == col
    ensures Visited(states, g, lol', stack', index', next', acc', co', col', S0, L0, i0, n0, co0, acc0, col0, v, a)
  {
    var T := stack[|S0|..];
    PopFacts(states, g, lol, stack, index, next, S0, L0, i0, n0, v, co, b);
    forall x | x in T ensures New(L0, lol, x) {
      var i :| 0 <= i < |T| && T[i] == x;
      assert stack[|S0| + i] == x;
    }
    Remarked(g, L0, lol, Assign(lol, T, next), co0, co, MarkAll(co, b, T), acc0, acc, col0, col, v, Black, a);
  }

  // ---------------------------------------------------------------------------
  // The visit of one state

  /**
   * Inside the visit of `v` once its first `k` transitions are examined:
   * the records and marks are sound, the colours follow discovery, the
   * Tarjan loop invariant holds, the states above `v` are finished, the
   * examined transitions have propagated their marks to `v`, and only the
   * states discovered since `L0` changed, all reached from `v`, `v` grey.
   */
  ghost predicate Examined<W>(states: seq<VectorFstState<W>>, g: seq<seq<StateId>>, lol: Lol, stack: seq<StateId>,
                              index: nat, next: nat, acc: seq<bool>, co: seq<bool>, col: seq<Color>,
                              S0: seq<StateId>, L0: Lol, i0: nat, n0: nat, co0: seq<bool>, acc0: seq<bool>, col0: seq<Color>,
                              v: StateId, a: bool, k: nat)
  {
    && Marks(states, g, lol, stack, index, next, acc, co)
    && ColorsOk(lol, col) && GreyOnStack(lol, col)
    && LoopInv(g, lol, stack, index, next, S0, L0, i0, n0, v, k)
    && Finished(states, g, lol, co, stack, |S0| + 1) && PropK(g, lol, co, v, k)
    && Confined(L0, lol, co0, co, acc0, acc, col0, col, v, Grey)
    && NewReached(g, L0, lol, acc, v, a)
  }

  /** `lol'` discovers, completes and stacks the same states as `lol`. */
  ghost predicate SameShape(lol: Lol, lol': Lol)
  {
    |lol'| == |lol| && forall x :: (Vis(lol', x) <==> Vis(lol, x)) && (Done(lol', x) <==> Done(lol, x)) && (OnStk(lol', x) <==> OnStk(lol, x))
  }

  /** Changing the lowlink of a discovered state changes no shape. */
  lemma LowShape(lol: Lol, v: StateId, b: nat)
    requires Vis(lol, v)
    ensures SameShape(lol, lol[v := Some(lol[v].value.(lowlink := b))])
  {
    var l := lol[v := Some(lol[v].value.(lowlink := b))];
    forall x ensures (Vis(l, x) <==> Vis(lol, x)) && (Done(l, x) <==> Done(lol, x)) && (OnStk(l, x) <==> OnStk(lol, x)) {
      if x == v { assert l[x].value.scc == lol[x].value.scc && l[x].value.onStack == lol[x].value.onStack; }
    }
  }

  /**
   * Marking the unfinished state `v` when the target of its transition `k`
   * is marked, under a change of records of the same shape, keeps the
   * marks sound, complete on completed states, the states of the stack
   * finished, and propagates transition `k` into `v`.
   */
  lemma Lifted<W>(states: seq<VectorFstState<W>>, g: seq<seq<StateId>>, lol: Lol, co: seq<bool>, lol': Lol, co': seq<bool>,
                  stack: seq<StateId>, from: nat, v: StateId, k: nat)
    requires g == Targets(states) && SameShape(lol, lol') && |co| == |lol| && v < |co| && !Done(lol, v)
    requires v < |g| && k < |g[v]| && g[v][k] < |co| && co' == co[v := co[v] || co[g[v][k]]]
    requires Finished(states, g, lol, co, stack, from) && CoSound(states, co) && CoDone(states, lol, co) && PropK(g, lol, co, v, k)
    ensures Finished(states, g, lol', co', stack, from) && CoSound(states, co') && CoDone(states, lol', co')
    ensures PropK(g, lol', co', v, k + 1)
  {
    if co[g[v][k]] {
      CoPrepend(states, v, g[v][k]);
    }
    forall i | from <= i < |stack| ensures Prop(states, g, lol', co', stack[i]) {
      var u := stack[i];
      assert Prop(states, g, lol, co, u);
      forall j | 0 <= j < |g[u]| && Done(lol', g[u][j]) && co'[g[u][j]] ensures co'[u] {
        assert g[u][j] != v;
      }
    }
    forall j | 0 <= j < k + 1 && Done(lol', g[v][j]) && co'[g[v][j]] ensures co'[v] {
      assert g[v][j] != v;
    }
  }

  /** Records of the same shape keep the colours following discovery and the grey states on the stack. */
  lemma ShapeColors(lol: Lol, lol': Lol, col: seq<Color>)
    requires SameShape(lol, lol') && ColorsOk(lol, col) && GreyOnStack(lol, col)
    ensures ColorsOk(lol', col) && GreyOnStack(lol', col)
  {
    forall x | 0 <= x < |lol| ensures col[x] == White <==> lol'[x].None? {
      assert Vis(lol', x) <==> Vis(lol, x);
    }
  }

  /** Every transition examined with bound `b` leads to a discovered state. */
  lemma ClosureZero(g: seq<seq<StateId>>, lol: Lol, stack: seq<StateId>, from: nat, b: nat)
    requires Closure(g, lol, stack, from, b)
    ensures Closure(g, lol, stack, from, 0)
  {
    forall i, k | from <= i < |stack| && stack[i] < |g| && 0 <= k < |g[stack[i]]| ensures Dfs.Ok(lol, g[stack[i]][k], 0) {
      assert Dfs.Ok(lol, g[stack[i]][k], b);
    }
  }

  /**
   * The changes confined to the states discovered by the visit of `v`, and
   * then to those discovered by the visit of its child `t`, are confined
   * to the states discovered by the visit of `v`.
   */
  lemma ConfinedJoin(g: seq<seq<StateId>>, L0: Lol, Lb: Lol, Lc: Lol, co0: seq<bool>, cob: seq<bool>, coc: seq<bool>,
                     acc0: seq<bool>, accb: seq<bool>, accc: seq<bool>, col0: seq<Color>, colb: seq<Color>, colc: seq<Color>,
                     v: StateId, t: StateId, a: bool)
    requires Confined(L0, Lb, co0, cob, acc0, accb, col0, colb, v, Grey) && NewReached(g, L0, Lb, accb, v, a)
    requires Confined(Lb, Lc, cob, coc, accb, accc, colb, colc, t, Black) && NewReached(g, Lb, Lc, accc, t, a)
    requires Keeps(L0, Lb) && Keeps(Lb, Lc) && New(L0, Lb, v) && v < |g| && t in g[v]
    ensures Confined(L0, Lc, co0, coc, acc0, accc, col0, colc, v, Grey) && NewReached(g, L0, Lc, accc, v, a)
  {
    forall x | New(L0, Lc, x) ensures Reaches(g, v, x) && accc[x] == a {
      if New(Lb, Lc, x) {
        ReachPrepend(g, v, t, x);
      }
    }
    forall x | 0 <= x < |Lc|
      ensures if New(L0, Lc, x) then colc[x] == (if x == v then Grey else Black)
              else coc[x] == co0[x] && accc[x] == acc0[x] && colc[x] == col0[x]
    {
      if Vis(L0, x) { assert Vis(Lb, x); }
    }
  }

  /** Discovering `v`, numbered `i0`, pushed, grey, and marked accessible iff `a`: its visit starts. */
  lemma StartFacts<W>(states: seq<VectorFstState<W>>, g: seq<seq<StateId>>, L0: Lol, S0: seq<StateId>,
                      i0: nat, n0: nat, acc0: seq<bool>, co0: seq<bool>, col0: seq<Color>, v: StateId, a: bool,
                      lol: Lol, stack: seq<StateId>, index: nat, next: nat, acc: seq<bool>, co: seq<bool>, col: seq<Color>)
    requires Marks(states, g, L0, S0, i0, n0, acc0, co0) && ColorsOk(L0, col0) && GreyOnStack(L0, col0)
    requires v < |g| && !Vis(L0, v)
    requires lol == L0[v := Some(TempSccs(i0, i0, true, None))] && stack == S0 + [v] && index == i0 + 1 && next == n0
    requires acc == acc0[v := a] && co == co0 && col == col0[v := Grey]
    ensures Examined(states, g, lol, stack, index, next, acc, co, col, S0, L0, i0, n0, co0, acc0, col0, v, a, 0)
  {
    LoopStart(g, L0, S0, i0, n0, v);
    forall x | 0 <= x < |lol| && x != v ensures lol[x] == L0[x] {
    }
    ReachRefl(g, v);
  }

  /** `LoopBack` on the records `lol'` it yields. */
  lemma ArcLoop(g: seq<seq<StateId>>, lol: Lol, stack: seq<StateId>, index: nat, next: nat,
                S0: seq<StateId>, L0: Lol, i0: nat, n0: nat, v: StateId, k: nat, lol': Lol)
    requires LoopInv(g, lol, stack, index, next, S0, L0, i0, n0, v, k)
    requires k < |g[v]| && Vis(lol, g[v][k])
    requires lol' == if OnStk(lol, g[v][k]) then lol[v := Some(lol[v].value.(lowlink := Min(LowOf(lol, v), IdxOf(lol, g[v][k]))))]
                     else lol
    ensures LoopInv(g, lol', stack, index, next, S0, L0, i0, n0, v, k + 1) && SameShape(lol, lol') && !Done(lol, v)
  {
    LoopBack(g, lol, stack, index, next, S0, L0, i0, n0, v, k);
    LowShape(lol, v, Min(LowOf(lol, v), IdxOf(lol, g[v][k])));
  }

  /** A transition of `v` to a discovered state: `back_arc` or `forward_or_cross_arc` examines it. */
  lemma ArcFacts<W>(states: seq<VectorFstState<W>>, g: seq<seq<StateId>>, lol: Lol, stack: seq<StateId>,
                    index: nat, next: nat, acc: seq<bool>, co: seq<bool>, col: seq<Color>,
                    S0: seq<StateId>, L0: Lol, i0: nat, n0: nat, co0: seq<bool>, acc0: seq<bool>, col0: seq<Color>,
                    v: StateId, a: bool, k: nat,
                    lol': Lol, stack': seq<StateId>, index': nat, next': nat, acc': seq<bool>, co': seq<bool>, col': seq<Color>)
    requires Examined(states, g, lol, stack, index, next, acc, co, col, S0, L0, i0, n0, co0, acc0, col0, v, a, k)
    requires k < |g[v]| && Vis(lol, g[v][k])
    requires lol' == if OnStk(lol, g[v][k]) then lol[v := Some(lol[v].value.(lowlink := Min(LowOf(lol, v), IdxOf(lol, g[v][k]))))]
                     else lol
    requires co' == co[v := co[v] || co[g[v][k]]]
    requires stack' == stack && index' == index && next' == next && acc' == acc && col' == col
    ensures Examined(states, g, lol', stack', index', next', acc', co', col', S0, L0, i0, n0, co0, acc0, col0, v, a, k + 1)
  {
    ArcLoop(g, lol, stack, index, next, S0, L0, i0, n0, v, k, lol');
    ShapeColors(lol, lol', col);
    Lifted(states, g, lol, co, lol', co', stack, |S0| + 1, v, k);
    Remarked(g, L0, lol, lol', co0, co, co', acc0, acc, col0, col, v, Grey, a);
  }

  /** `LoopChild` on the records `lol'` it yields. */
  lemma ChildLoop(g: seq<seq<StateId>>, lol: Lol, stack: seq<StateId>, index: nat, next: nat,
                  Lc: Lol, Sc: seq<StateId>, ic: nat, nc: nat,
                  S0: seq<StateId>, L0: Lol, i0: nat, n0: nat, v: StateId, k: nat, lol': Lol)
    requires LoopInv(g, lol, stack, index, next, S0, L0, i0, n0, v, k)
    requires k < |g[v]| && !Vis(lol, g[v][k])
    requires CallPost(g, Lc, Sc, ic, nc, stack, lol, index, next, g[v][k])
    requires lol' == Lc[v := Some(Lc[v].value.(lowlink := Min(LowOf(Lc, v), LowOf(Lc, g[v][k]))))]
    ensures LoopInv(g, lol', Sc, ic, nc, S0, L0, i0, n0, v, k + 1) && SameShape(Lc, lol') && !Done(Lc, v)
  {
    LoopChild(g, lol, stack, index, next, Lc, Sc, ic, nc, S0, L0, i0, n0, v, k);
    assert lol[v] == Lc[v];
    LowShape(Lc, v, Min(LowOf(Lc, v), LowOf(Lc, g[v][k])));
  }

  /**
   * After the visit of the child `g[v][k]`, from `lol`… to `Lc`…: the
   * states above `v` are finished and the first `k` transitions of `v`
   * still propagated.
   */
  lemma ChildFinished<W>(states: seq<VectorFstState<W>>, g: seq<seq<StateId>>, lol: Lol, stack: seq<StateId>,
                         index: nat, next: nat, co: seq<bool>, S0: seq<StateId>, L0: Lol, i0: nat, n0: nat, v: StateId, k: nat,
                         Lc: Lol, Sc: seq<StateId>, coc: seq<bool>, co0: seq<bool>, acc0: seq<bool>, acc: seq<bool>,
                         col0: seq<Color>, col: seq<Color>, t: StateId)
    requires LoopInv(g, lol, stack, index, next, S0, L0, i0, n0, v, k) && |co| == |lol|
    requires Finished(states, g, lol, co, stack, |S0| + 1) && PropK(g, lol, co, v, k)
    requires Keeps(lol, Lc) && Confined(lol, Lc, co0, coc, acc0, acc, col0, col, t, Black) && co0 == co
    requires |Sc| >= |stack| && Sc[..|stack|] == stack && Finished(states, g, Lc, coc, Sc, |stack|)
    ensures Finished(states, g, Lc, coc, Sc, |S0| + 1) && PropK(g, Lc, coc, v, k)
  {
    assert Settled(lol, co, Lc, coc) by {
      forall x | Vis(lol, x) ensures (co[x] ==> coc[x]) && (Done(Lc, x) && coc[x] ==> Done(lol, x) && co[x]) {
        assert !New(lol, Lc, x);
      }
    }
    ClosureZero(g, lol, stack, |S0| + 1, LowOf(lol, v));
    forall i | |S0| + 1 <= i < |stack| ensures Vis(lol, stack[i]) {
      assert OnStk(lol, stack[i]);
    }
    FinishedMono(states, g, lol, co, Lc, coc, stack, |S0| + 1);
    FinishedJoin(states, g, Lc, coc, stack, Sc, |S0| + 1);
    PropKMono(g, lol, co, Lc, coc, v, k);
  }

  /**
   * A transition of `v` to an undiscovered state: the visit of that state,
   * from the state `lol`… to the state `Lc`…, and then `finish_state` with
   * parent `v`, examine it.
   */
  lemma ChildFacts<W>(states: seq<VectorFstState<W>>, g: seq<seq<StateId>>, lol: Lol, stack: seq<StateId>,
                      index: nat, next: nat, acc: seq<bool>, co: seq<bool>, col: seq<Color>,
                      S0: seq<StateId>, L0: Lol, i0: nat, n0: nat, co0: seq<bool>, acc0: seq<bool>, col0: seq<Color>,
                      v: StateId, a: bool, k: nat,
                      Lc: Lol, Sc: seq<StateId>, ic: nat, nc: nat, accc: seq<bool>, coc: seq<bool>, colc: seq<Color>,
                      lol': Lol, stack': seq<StateId>, index': nat, next': nat, acc': seq<bool>, co': seq<bool>, col': seq<Color>)
    requires Examined(states, g, lol, stack, index, next, acc, co, col, S0, L0, i0, n0, co0, acc0, col0, v, a, k)
    requires k < |g[v]| && !Vis(lol, g[v][k])
    requires Visited(states, g, Lc, Sc, ic, nc, accc, coc, colc, stack, lol, index, next, co, acc, col, g[v][k], a)
    requires ColorsOk(Lc, colc) && GreyOnStack(Lc, colc)
    requires lol' == Lc[v := Some(Lc[v].value.(lowlink := Min(LowOf(Lc, v), LowOf(Lc, g[v][k]))))]
    requires co' == coc[v := coc[v] || coc[g[v][k]]]
    requires stack' == Sc && index' == ic && next' == nc && acc' == accc && col' == colc
    ensures Examined(states, g, lol', stack', index', next', acc', co', col', S0, L0, i0, n0, co0, acc0, col0, v, a, k + 1)
  {
    ChildLoop(g, lol, stack, index, next, Lc, Sc, ic, nc, S0, L0, i0, n0, v, k, lol');
    ChildFinished(states, g, lol, stack, index, next, co, S0, L0, i0, n0, v, k, Lc, Sc, coc, co, acc, accc, col, colc, g[v][k]);
    ShapeColors(Lc, lol', colc);
    Lifted(states, g, Lc, coc, lol', co', Sc, |S0| + 1, v, k);
    ConfinedJoin(g, L0, lol, Lc, co0, co, coc, acc0, acc, accc, col0, col, colc, v, g[v][k], a);
    Remarked(g, L0, Lc, lol', co0, coc, co', acc0, accc, col0, colc, v, Grey, a);
  }

  /** With every transition of `v` examined and `v` coloured black, `finish_state` may start. */
  lemma BlackFacts<W>(states: seq<VectorFstState<W>>, g: seq<seq<StateId>>, lol: Lol, stack: seq<StateId>,
                      index: nat, next: nat, acc: seq<bool>, co: seq<bool>, col: seq<Color>,
                      S0: seq<StateId>, L0: Lol, i0: nat, n0: nat, co0: seq<bool>, acc0: seq<bool>, col0: seq<Color>,
                      v: StateId, a: bool, col': seq<Color>)
    requires v < |g| && Examined(states, g, lol, stack, index, next, acc, co, col, S0, L0, i0, n0, co0, acc0, col0, v, a, |g[v]|)
    requires col' == col[v := Black]
    ensures Finishing(states, g, lol, stack, index, next, acc, co, col', S0, L0, i0, n0, co0, acc0, col0, v, a, |S0| + 1)
    ensures PropK(g, lol, co, v, |g[v]|)
  {
  }

  /** After the visit of `v`, the colours still follow discovery and grey states are still on the stack. */
  lemma VisitColors(L0: Lol, col0: seq<Color>, lol: Lol, co0: seq<bool>, co: seq<bool>, acc0: seq<bool>, acc: seq<bool>,
                    col: seq<Color>, v: StateId)
    requires ColorsOk(L0, col0) && GreyOnStack(L0, col0) && Keeps(L0, lol)
    requires Confined(L0, lol, co0, co, acc0, acc, col0, col, v, Black)
    ensures ColorsOk(lol, col) && GreyOnStack(lol, col)
  {
    GreyKept(L0, lol, co0, co, acc0, acc, col0, col, v, Black);
    forall x | 0 <= x < |lol| ensures col[x] == White <==> lol[x].None? {
      if !New(L0, lol, x) && Vis(lol, x) { assert Vis(L0, x); }
    }
  }

  // ---------------------------------------------------------------------------
  // The roots of `dfs_visit`

  /** A visit from the bottom of an empty stack leaves the stack empty. */
  lemma RootEmpty(g: seq<seq<StateId>>, lol: Lol, stack: seq<StateId>, index: nat, next: nat, L0: Lol, i0: nat, n0: nat, v: StateId)
    requires CallPost(g, lol, stack, index, next, [], L0, i0, n0, v)
    ensures stack == []
  {
  }

  /**
   * The sweep of `dfs_visit` once the start `st` and every root below
   * `root` are visited: the accessible marks are exactly the states
   * reachable from `st`.
   */
  ghost predicate Swept(g: seq<seq<StateId>>, lol: Lol, acc: seq<bool>, st: StateId, root: nat)
  {
    && |lol| == |g| && |acc| == |g| && st < |g| && Vis(lol, st) && root <= |g|
    && (forall x :: 0 <= x < root ==> Vis(lol, x))
    && (forall x :: 0 <= x < |g| ==> (acc[x] <==> Reaches(g, st, x)))
  }

  /**
   * The visit of the start state `st` from the state `L`… where nothing is
   * discovered or marked accessible: afterwards the stack is empty and the
   * accessible marks are the states reachable from `st`.
   */
  lemma FirstSweep<W>(states: seq<VectorFstState<W>>, g: seq<seq<StateId>>, L: Lol, i: nat, n: nat,
                      acc0: seq<bool>, co0: seq<bool>, col0: seq<Color>, st: StateId,
                      lol: Lol, stack: seq<StateId>, index: nat, next: nat, acc: seq<bool>, co: seq<bool>, col: seq<Color>)
    requires L == seq(|g|, _ => None) && acc0 == seq(|g|, _ => false) && st < |g|
    requires Visited(states, g, lol, stack, index, next, acc, co, col, [], L, i, n, co0, acc0, col0, st, true)
    ensures stack == [] && Swept(g, lol, acc, st, 0) && Unvisited(lol) < Unvisited(L)
  {
    RootEmpty(g, lol, stack, index, next, L, i, n, st);
    forall x | 0 <= x < |g| ensures acc[x] <==> Reaches(g, st, x) {
      assert !Vis(L, x);
      if !Vis(lol, x) && Reaches(g, st, x) {
        EmptyStackClosed(g, lol, index, next, st, x);
      }
    }
    UnvisitedShrinks(L, lol, st);
  }

  /**
   * The visit of a later root `root`, undiscovered in `L`…: the stack is
   * empty again, `root` is discovered, and nothing it discovered is
   * reachable from `st`, so the accessible marks stay exact.
   */
  lemma NextSweep<W>(states: seq<VectorFstState<W>>, g: seq<seq<StateId>>, L: Lol, i: nat, n: nat,
                     acc0: seq<bool>, co0: seq<bool>, col0: seq<Color>, st: StateId, root: StateId, a: bool,
                     lol: Lol, stack: seq<StateId>, index: nat, next: nat, acc: seq<bool>, co: seq<bool>, col: seq<Color>)
    requires Marks(states, g, L, [], i, n, acc0, co0) && Swept(g, L, acc0, st, root) && root < |g| && !Vis(L, root)
    requires a == (Some(st) == Some(root))
    requires Visited(states, g, lol, stack, index, next, acc, co, col, [], L, i, n, co0, acc0, col0, root, a)
    ensures stack == [] && root != st && Swept(g, lol, acc, st, root + 1) && Unvisited(lol) < Unvisited(L)
  {
    RootEmpty(g, lol, stack, index, next, L, i, n, root);
    forall x | 0 <= x < |g| ensures acc[x] <==> Reaches(g, st, x) {
      if New(L, lol, x) && Reaches(g, st, x) {
        EmptyStackClosed(g, L, i, n, st, x);
      }
    }
    assert Vis(L, st);
    forall x | 0 <= x < root + 1 ensures Vis(lol, x) {
      if x < root { assert Vis(L, x); }
    }
    UnvisitedShrinks(L, lol, root);
  }

  /**
   * Every state visited and the stack empty: the accessible marks are the
   * states reachable from the start, and the coaccessible marks are the
   * states reaching a final state.
   */
  lemma SweepDone<W>(states: seq<VectorFstState<W>>, g: seq<seq<StateId>>, lol: Lol, index: nat, next: nat,
                     acc: seq<bool>, co: seq<bool>, st: StateId)
    requires Marks(states, g, lol, [], index, next, acc, co) && Swept(g, lol, acc, st, |g|)
    ensures forall x :: 0 <= x < |states| ==> (acc[x] <==> Accessible(states, Some(st), x))
    ensures forall x :: 0 <= x < |states| ==> (co[x] <==> CoAccessible(states, x))
  {
    EmptyStackDone(g, lol, index, next);
    forall x | 0 <= x < |states| ensures co[x] <==> CoAccessible(states, x) {
      assert Vis(lol, x);
    }
  }

  /**
   * Between two roots of `dfs_visit` from the start `st`: sound records and
   * marks with an empty stack, colours following discovery, and `root`
   * undiscovered; before the first visit (`first`) nothing is discovered
   * or marked accessible, and afterwards the sweep is up to `root`.
   */
  ghost predicate Sweeping<W>(states: seq<VectorFstState<W>>, g: seq<seq<StateId>>, lol: Lol, stack: seq<StateId>,
                              index: nat, next: nat, acc: seq<bool>, co: seq<bool>, col: seq<Color>,
                              st: StateId, root: StateId, first: bool)
  {
    && Marks(states, g, lol, stack, index, next, acc, co) && ColorsOk(lol, col) && GreyOnStack(lol, col)
    && stack == [] && |lol| == |g|
    && (first ==> root == st && lol == seq(|g|, _ => None) && acc == seq(|g|, _ => false))
    && (!first ==> Swept(g, lol, acc, st, root))
    && (root < |g| ==> !Vis(lol, root))
  }

  /**
   * The visit of `root`, from `L`… to `lol`…: the stack is empty again, the
   * start was the root exactly on the first visit, and the sweep is up to
   * the root after it (0 after the start, the next state otherwise).
   */
  lemma SweepStep<W>(states: seq<VectorFstState<W>>, g: seq<seq<StateId>>, L: Lol, S: seq<StateId>, i: nat, n: nat,
                     acc0: seq<bool>, co0: seq<bool>, col0: seq<Color>, st: StateId, root: StateId, first: bool,
                     lol: Lol, stack: seq<StateId>, index: nat, next: nat, acc: seq<bool>, co: seq<bool>, col: seq<Color>)
    requires Sweeping(states, g, L, S, i, n, acc0, co0, col0, st, root, first) && root < |g|
    requires Visited(states, g, lol, stack, index, next, acc, co, col, S, L, i, n, co0, acc0, col0, root, Some(st) == Some(root))
    ensures Marks(states, g, lol, stack, index, next, acc, co) && stack == [] && (root == st <==> first)
    ensures Swept(g, lol, acc, st, if first then 0 else root + 1) && Unvisited(lol) < Unvisited(L)
  {
    if first {
      FirstSweep(states, g, L, i, n, acc0, co0, col0, st, lol, stack, index, next, acc, co, col);
    } else {
      NextSweep(states, g, L, i, n, acc0, co0, col0, st, root, Some(st) == Some(root), lol, stack, index, next, acc, co, col);
    }
  }

  /** A start outside the FST reaches none of its states. */
  lemma StartOutside<W>(states: seq<VectorFstState<W>>, st: StateId)
    requires st >= |states|
    ensures forall x :: 0 <= x < |states| ==> !Accessible(states, Some(st), x)
  {
    forall x | 0 <= x < |states| && Accessible(states, Some(st), x) ensures false {
      ReachInside(Targets(states), st, x);
    }
  }
}
