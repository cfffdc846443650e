/**
 * `connect`: trims an FST to the states that lie on a path from the start
 * state to a final state. `dfs_visit` walks the transitions depth first
 * from the start state and then from every undiscovered state in order;
 * the `SccVisitor` it drives numbers the states (Tarjan's algorithm over an
 * explicit component stack), marks as accessible the states of the tree
 * rooted at the start, and marks as coaccessible the final states, every
 * state with a transition to a coaccessible state, and every state of a
 * component holding a coaccessible state. `connect` then deletes every
 * state that misses either mark.
 *
 * The proof reuses the Tarjan invariants of `Dfs` on a ghost record
 * vector coupled to the visitor's `dfnumber`, `lowlink` and `onstack`;
 * the facts about the marks are in `ConnectMarks`.
 */
module Connect {
  import opened Wrappers
  import opened FstTypes
  import opened Dfs
  import opened ConnectMarks
  import opened DelStatesSpec
  import opened VectorFsts

  // ---------------------------------------------------------------------------
  // The visitor

  /**
   * `SccVisitor`, together with the colours of `dfs_visit`. `start` is the
   * FST's start state (the source stores it as an `i32`, -1 for none).
   */
  class SccVisitor<W> {
    const states: seq<VectorFstState<W>>
    /** The destinations of the transitions of `states`. */
    ghost const g: seq<seq<StateId>>
    const start: Option<StateId>
    var access: seq<bool>
    var coaccess: seq<bool>
    var nstates: nat
    var dfnumber: seq<int>
    var lowlink: seq<int>
    var onstack: seq<bool>
    var sccStack: seq<StateId>
    /** The colours `dfs_visit` keeps for the states. */
    var stateColor: seq<Color>
    /** The Tarjan records held by `dfnumber`, `lowlink` and `onstack`, with component ids. */
    ghost var lol: Lol
    /** The id the next completed component gets. */
    ghost var nextScc: nat

    /** The Tarjan invariant on the records, which the vectors hold, and sound marks. */
    ghost predicate Valid()
      reads this
    {
      Marks(states, g, lol, sccStack, nstates, nextScc, access, coaccess) && Coupled(lol, dfnumber, lowlink, onstack)
    }

    /** The colours follow discovery, and grey states are on the stack. */
    ghost predicate Colored()
      reads this
    {
      ColorsOk(lol, stateColor) && GreyOnStack(lol, stateColor)
    }

    /** `SccVisitor::new`: empty vectors. */
    constructor (fstStates: seq<VectorFstState<W>>, fstStart: Option<StateId>)
      ensures states == fstStates && start == fstStart && g == Targets(fstStates)
      ensures access == [] && coaccess == [] && nstates == 0 && sccStack == []
    {
      states := fstStates;
      g := Targets(fstStates);
      start := fstStart;
      access := [];
      coaccess := [];
      nstates := 0;
      dfnumber := [];
      lowlink := [];
      onstack := [];
      sccStack := [];
      stateColor := [];
      lol := [];
      nextScc := 0;
    }

    /** `init_visit`: one entry per state, nothing discovered, nothing marked. */
    method InitVisit()
      requires g == Targets(states) && TrsInRange(states)
      modifies this
      ensures Valid() && sccStack == [] && lol == seq(|states|, _ => None)
      ensures access == seq(|states|, _ => false) && coaccess == seq(|states|, _ => false)
      ensures stateColor == old(stateColor)
    {
      var n := |states|;
      EmptyInv(g);
      access := seq(n, _ => false);
      coaccess := seq(n, _ => false);
      nstates := 0;
      dfnumber := seq(n, _ => -1);
      lowlink := seq(n, _ => -1);
      onstack := seq(n, _ => false);
      sccStack := [];
      lol := seq(n, _ => None);
      nextScc := 0;
    }

    /** `init_state`: pushes `s`, numbers it, and marks it accessible iff its tree is rooted at the start. */
    method InitState(s: StateId, root: StateId)
      requires s < |lol| && Coupled(lol, dfnumber, lowlink, onstack) && |access| == |lol|
      modifies this`sccStack, this`dfnumber, this`lowlink, this`onstack, this`access, this`nstates, this`lol
      ensures sccStack == old(sccStack) + [s] && nstates == old(nstates) + 1
      ensures lol == old(lol)[s := Some(TempSccs(old(nstates), old(nstates), true, None))]
      ensures access == old(access)[s := start == Some(root)]
      ensures Coupled(lol, dfnumber, lowlink, onstack)
    {
      sccStack := sccStack + [s];
      dfnumber := dfnumber[s := nstates];
      lowlink := lowlink[s := nstates];
      onstack := onstack[s := true];
      access := access[s := start == Some(root)];
      lol := lol[s := Some(TempSccs(nstates, nstates, true, None))];
      nstates := nstates + 1;
    }

    /** `back_arc`: the lowlink of `s` drops to the number of `t`, and `s` is marked if `t` is. */
    method BackArc(s: StateId, t: StateId)
      requires Coupled(lol, dfnumber, lowlink, onstack) && Vis(lol, s) && Vis(lol, t) && |coaccess| == |lol|
      modifies this`lowlink, this`coaccess, this`lol
      ensures lol == old(lol)[s := Some(old(lol)[s].value.(lowlink := Min(LowOf(old(lol), s), IdxOf(old(lol), t))))]
      ensures coaccess == old(coaccess)[s := old(coaccess)[s] || old(coaccess)[t]]
      ensures Coupled(lol, dfnumber, lowlink, onstack)
    {
      if dfnumber[t] < lowlink[s] {
        lowlink := lowlink[s := dfnumber[t]];
      }
      if coaccess[t] {
        coaccess := coaccess[s := true];
      }
      lol := lol[s := Some(lol[s].value.(lowlink := Min(LowOf(lol, s), IdxOf(lol, t))))];
    }

    /**
     * `forward_or_cross_arc`: when `t` is on the stack and numbered below
     * `s`, the lowlink of `s` drops to the number of `t` (a target on the
     * stack numbered above `s` cannot lower it); `s` is marked if `t` is.
     */
    method ForwardOrCrossArc(s: StateId, t: StateId)
      requires Coupled(lol, dfnumber, lowlink, onstack) && Vis(lol, s) && Vis(lol, t) && |coaccess| == |lol|
      requires LowOf(lol, s) <= IdxOf(lol, s)
      modifies this`lowlink, this`coaccess, this`lol
      ensures lol == if OnStk(old(lol), t) then old(lol)[s := Some(old(lol)[s].value.(lowlink := Min(LowOf(old(lol), s), IdxOf(old(lol), t))))]
                     else old(lol)
      ensures coaccess == old(coaccess)[s := old(coaccess)[s] || old(coaccess)[t]]
      ensures Coupled(lol, dfnumber, lowlink, onstack)
    {
      if dfnumber[t] < dfnumber[s] && onstack[t] && dfnumber[t] < lowlink[s] {
        lowlink := lowlink[s := dfnumber[t]];
      }
      if coaccess[t] {
        coaccess := coaccess[s := true];
      }
      if OnStk(lol, t) {
        lol := lol[s := Some(lol[s].value.(lowlink := Min(LowOf(lol, s), IdxOf(lol, t))))];
      }
    }

    /** `finish_state` with parent `p`: `p` is marked if `s` is, and its lowlink drops to that of `s`. */
    method FinishParent(s: StateId, p: StateId)
      requires Coupled(lol, dfnumber, lowlink, onstack) && Vis(lol, s) && Vis(lol, p) && |coaccess| == |lol|
      modifies this`lowlink, this`coaccess, this`lol
      ensures lol == old(lol)[p := Some(old(lol)[p].value.(lowlink := Min(LowOf(old(lol), p), LowOf(old(lol), s))))]
      ensures coaccess == old(coaccess)[p := old(coaccess)[p] || old(coaccess)[s]]
      ensures Coupled(lol, dfnumber, lowlink, onstack)
    {
      if coaccess[s] {
        coaccess := coaccess[p := true];
      }
      if lowlink[s] < lowlink[p] {
        lowlink := lowlink[p := lowlink[s]];
      }
      lol := lol[p := Some(lol[p].value.(lowlink := Min(LowOf(lol, p), LowOf(lol, s))))];
    }

    /**
     * The scan of `finish_state`: walks the stack down from the top to `s`,
     * at position `r`, and says whether one of the states passed is marked.
     */
    method SccCoaccess(s: StateId, ghost r: nat) returns (b: bool)
      requires r < |sccStack| && sccStack[r] == s && forall i :: r < i < |sccStack| ==> sccStack[i] != s
      requires forall i :: 0 <= i < |sccStack| ==> sccStack[i] < |coaccess|
      ensures b <==> exists w :: w in sccStack[r..] && w < |coaccess| && coaccess[w]
    {
      b := false;
      var i := |sccStack|;
      while true
        invariant r < i <= |sccStack|
        invariant b <==> exists w :: w in sccStack[i..] && w < |coaccess| && coaccess[w]
        decreases i
      {
        i := i - 1;
        var t := sccStack[i];
        assert sccStack[i..] == [t] + sccStack[i + 1..];
        if coaccess[t] {
          b := true;
        }
        if s == t {
          break;
        }
      }
    }

    /**
     * One round of the pop loop of `finish_state`: the top state `t` is
     * marked when `b` and taken off the stack. Against the stack `st0`,
     * flags `on0` and marks `co0` before the loop, the popped part grows by
     * one state, which is `s` only at position `r`.
     */
    method PopTop(s: StateId, b: bool, ghost r: nat, ghost st0: seq<StateId>, ghost on0: seq<bool>, ghost co0: seq<bool>)
      returns (t: StateId)
      requires Popping(st0, on0, co0, b, sccStack, onstack, coaccess) && |on0| == |lol| && |co0| == |lol|
      requires StackOk(lol, st0) && r < |sccStack| && st0[r] == s
      modifies this`sccStack, this`onstack, this`coaccess
      ensures Popping(st0, on0, co0, b, sccStack, onstack, coaccess)
      ensures |sccStack| == |old(sccStack)| - 1 && (t == s <==> |sccStack| == r)
    {
      var n := |sccStack| - 1;
      t := sccStack[n];
      assert t == st0[n];
      StackPos(lol, st0, r, n, s);
      MarkStep(co0, b, st0, n);
      ClearStep(on0, st0, n);
      if b {
        coaccess := coaccess[t := true];
      }
      onstack := onstack[t := false];
      sccStack := sccStack[..n];
    }

    /**
     * The pop loop of `finish_state`: pops the stack down to `s`, at
     * position `r`, clearing the stack flags and marking the popped states
     * when `b`. The popped states are completed with id `nextScc`, which
     * moves on to the next id.
     */
    method PopScc(s: StateId, b: bool, ghost r: nat)
      requires StackOk(lol, sccStack) && r < |sccStack| && sccStack[r] == s
      requires Coupled(lol, dfnumber, lowlink, onstack) && |coaccess| == |lol|
      modifies this`sccStack, this`onstack, this`coaccess, this`lol, this`nextScc
      ensures sccStack == old(sccStack)[..r]
      ensures lol == Assign(old(lol), old(sccStack)[r..], old(nextScc)) && nextScc == old(nextScc) + 1
      ensures coaccess == MarkAll(old(coaccess), b, old(sccStack)[r..])
      ensures Coupled(lol, dfnumber, lowlink, onstack)
    {
      ghost var st0, on0, co0 := sccStack, onstack, coaccess;
      CoupledPop(lol, dfnumber, lowlink, on0, st0, r, nextScc);
      assert Popping(st0, on0, co0, b, sccStack, onstack, coaccess);
      var done := false;
      while !done
        invariant lol == old(lol) && nextScc == old(nextScc) && r <= |sccStack|
        invariant Popping(st0, on0, co0, b, sccStack, onstack, coaccess)
        invariant done <==> |sccStack| == r
        decreases |sccStack|
      {
        var t := PopTop(s, b, r, st0, on0, co0);
        if s == t {
          done := true;
        }
      }
      lol := Assign(lol, st0[r..], nextScc);
      nextScc := nextScc + 1;
    }

    /**
     * The component part of `finish_state`: `s` is the root of its
     * component; the stack is scanned down to `s` for a marked state, and
     * the component is popped, all its states taking that mark.
     */
    method CloseScc(s: StateId, ghost S0: seq<StateId>, ghost L0: Lol, ghost i0: nat, ghost n0: nat,
                    ghost co0: seq<bool>, ghost acc0: seq<bool>, ghost col0: seq<Color>, ghost a: bool)
      requires Finishing(states, g, lol, sccStack, nstates, nextScc, access, coaccess, stateColor, S0, L0, i0, n0, co0, acc0, col0, s, a, |S0|)
      requires LowOf(lol, s) == i0 && Coupled(lol, dfnumber, lowlink, onstack)
      modifies this`sccStack, this`onstack, this`coaccess, this`lol, this`nextScc
      ensures Visited(states, g, lol, sccStack, nstates, nextScc, access, coaccess, stateColor, S0, L0, i0, n0, co0, acc0, col0, s, a)
      ensures Coupled(lol, dfnumber, lowlink, onstack)
    {
      PopReady(lol, sccStack, |S0|, s, |coaccess|);
      var b := SccCoaccess(s, |S0|);
      PopScc(s, b, |S0|);
      CloseFacts(states, g, old(lol), old(sccStack), old(nstates), old(nextScc), old(access), old(coaccess), old(stateColor),
                 S0, L0, i0, n0, co0, acc0, col0, s, a, b, lol, sccStack, nstates, nextScc, access, coaccess, stateColor);
    }

    /**
     * `finish_state` without a parent: `s`, whose transitions are all
     * examined, is marked if final; if it is the root of its component
     * (number equal to lowlink), the component is closed. Against the state
     * before the visit of `s`, this completes that visit.
     */
    method FinishState(s: StateId, ghost S0: seq<StateId>, ghost L0: Lol, ghost i0: nat, ghost n0: nat,
                       ghost co0: seq<bool>, ghost acc0: seq<bool>, ghost col0: seq<Color>, ghost a: bool)
      requires Finishing(states, g, lol, sccStack, nstates, nextScc, access, coaccess, stateColor, S0, L0, i0, n0, co0, acc0, col0, s, a, |S0| + 1)
      requires PropK(g, lol, coaccess, s, |g[s]|) && Coupled(lol, dfnumber, lowlink, onstack)
      modifies this`sccStack, this`onstack, this`coaccess, this`lol, this`nextScc
      ensures Visited(states, g, lol, sccStack, nstates, nextScc, access, coaccess, stateColor, S0, L0, i0, n0, co0, acc0, col0, s, a)
      ensures Coupled(lol, dfnumber, lowlink, onstack)
    {
      ghost var co1 := coaccess;
      if states[s].final_weight.Some? {
        coaccess := coaccess[s := true];
      }
      FinishMark(states, g, lol, sccStack, nstates, nextScc, access, co1, stateColor, S0, L0, i0, n0, co0, acc0, col0, s, a, coaccess);
      if dfnumber[s] == lowlink[s] {
        CloseScc(s, S0, L0, i0, n0, co0, acc0, col0, a);
      }
    }

    /**
     * One step of the inner loop of `dfs_visit` on the top state `s`, for its
     * transition `k`: a white target is discovered and visited (a tree
     * arc), and `finish_state` then runs with parent `s`; a grey target is
     * a back arc, a black one a forward or cross arc.
     */
    method ExamineArc(s: StateId, k: nat, root: StateId, ghost S0: seq<StateId>, ghost L0: Lol, ghost i0: nat, ghost n0: nat,
                      ghost co0: seq<bool>, ghost acc0: seq<bool>, ghost col0: seq<Color>, ghost a: bool)
      requires Examined(states, g, lol, sccStack, nstates, nextScc, access, coaccess, stateColor, S0, L0, i0, n0, co0, acc0, col0, s, a, k)
      requires k < |g[s]| && Coupled(lol, dfnumber, lowlink, onstack) && a == (start == Some(root))
      modifies this`sccStack, this`dfnumber, this`lowlink, this`onstack, this`access, this`coaccess, this`nstates
      modifies this`lol, this`nextScc, this`stateColor
      ensures Examined(states, g, lol, sccStack, nstates, nextScc, access, coaccess, stateColor, S0, L0, i0, n0, co0, acc0, col0, s, a, k + 1)
      ensures Coupled(lol, dfnumber, lowlink, onstack)
      decreases Unvisited(L0), 0
    {
      var t := states[s].trs[k].nextstate;
      match stateColor[t]
      case White =>
        UnvisitedShrinks(L0, lol, s);
        Visit(t, root);
        ghost var Lc, Sc, ic, nc, accc, coc, colc := lol, sccStack, nstates, nextScc, access, coaccess, stateColor;
        FinishParent(t, s);
        ChildFacts(states, g, old(lol), old(sccStack), old(nstates), old(nextScc), old(access), old(coaccess), old(stateColor),
                   S0, L0, i0, n0, co0, acc0, col0, s, a, k, Lc, Sc, ic, nc, accc, coc, colc,
                   lol, sccStack, nstates, nextScc, access, coaccess, stateColor);
      case Grey =>
        BackArc(s, t);
        ArcFacts(states, g, old(lol), old(sccStack), old(nstates), old(nextScc), old(access), old(coaccess), old(stateColor),
                 S0, L0, i0, n0, co0, acc0, col0, s, a, k, lol, sccStack, nstates, nextScc, access, coaccess, stateColor);
      case Black =>
        ForwardOrCrossArc(s, t);
        ArcFacts(states, g, old(lol), old(sccStack), old(nstates), old(nextScc), old(access), old(coaccess), old(stateColor),
                 S0, L0, i0, n0, co0, acc0, col0, s, a, k, lol, sccStack, nstates, nextScc, access, coaccess, stateColor);
    }

    /**
     * The visit of the white state `v` in the tree rooted at `root`: `v`
     * turns grey and `init_state` runs, each transition of `v` is examined
     * in order, `v` turns black and `finish_state` runs. The source keeps
     * the pending states on an explicit stack of transition iterators; here
     * that stack is the call stack.
     */
    method Visit(v: StateId, root: StateId)
      requires Valid() && Colored() && v < |g| && !Vis(lol, v)
      modifies this`sccStack, this`dfnumber, this`lowlink, this`onstack, this`access, this`coaccess, this`nstates
      modifies this`lol, this`nextScc, this`stateColor
      ensures Visited(states, g, lol, sccStack, nstates, nextScc, access, coaccess, stateColor,
                      old(sccStack), old(lol), old(nstates), old(nextScc), old(coaccess), old(access), old(stateColor), v, start == Some(root))
      ensures Coupled(lol, dfnumber, lowlink, onstack) && Colored()
      decreases Unvisited(lol), 1
    {
      stateColor := stateColor[v := Grey];
      InitState(v, root);
      StartFacts(states, g, old(lol), old(sccStack), old(nstates), old(nextScc), old(access), old(coaccess), old(stateColor),
                 v, start == Some(root), lol, sccStack, nstates, nextScc, access, coaccess, stateColor);
      for k := 0 to |states[v].trs|
        invariant Examined(states, g, lol, sccStack, nstates, nextScc, access, coaccess, stateColor,
                           old(sccStack), old(lol), old(nstates), old(nextScc), old(coaccess), old(access), old(stateColor),
                           v, start == Some(root), k)
        invariant Coupled(lol, dfnumber, lowlink, onstack)
      {
        ExamineArc(v, k, root, old(sccStack), old(lol), old(nstates), old(nextScc), old(coaccess), old(access), old(stateColor),
                   start == Some(root));
      }
      ghost var col1 := stateColor;
      stateColor := stateColor[v := Black];
      BlackFacts(states, g, lol, sccStack, nstates, nextScc, access, coaccess, col1,
                 old(sccStack), old(lol), old(nstates), old(nextScc), old(coaccess), old(access), old(stateColor),
                 v, start == Some(root), stateColor);
      FinishState(v, old(sccStack), old(lol), old(nstates), old(nextScc), old(coaccess), old(access), old(stateColor), start == Some(root));
      VisitColors(old(lol), old(stateColor), lol, old(coaccess), coaccess, old(access), access, stateColor, v);
    }

    /**
     * `dfs_visit` with this visitor: from the start state, then from every
     * undiscovered state in increasing order, visit; with no start, nothing
     * is visited. Afterwards a state is marked accessible iff the start
     * reaches it, a state marked coaccessible reaches a final state, and,
     * the start being a state, every state reaching a final state is marked.
     */
    method DfsVisit()
      requires g == Targets(states) && TrsInRange(states)
      modifies this
      ensures |access| == |states| && |coaccess| == |states|
      ensures forall x :: 0 <= x < |states| ==> (access[x] <==> Accessible(states, start, x))
      ensures forall x :: 0 <= x < |states| && coaccess[x] ==> CoAccessible(states, x)
      ensures start.Some? && start.value < |states| ==> forall x :: 0 <= x < |states| ==> (coaccess[x] <==> CoAccessible(states, x))
    {
      InitVisit();
      if start.None? {
        return;
      }
      var st := start.value;
      var n := |states|;
      stateColor := seq(n, _ => White);
      var root: StateId := st;
      ghost var first := true;
      while root < n
        invariant Sweeping(states, g, lol, sccStack, nstates, nextScc, access, coaccess, stateColor, st, root, first)
        invariant Coupled(lol, dfnumber, lowlink, onstack)
        decreases Unvisited(lol)
      {
        ghost var L, S, i, nn, acc0, co0, col0 := lol, sccStack, nstates, nextScc, access, coaccess, stateColor;
        Visit(root, root);
        SweepStep(states, g, L, S, i, nn, acc0, co0, col0, st, root, first,
                  lol, sccStack, nstates, nextScc, access, coaccess, stateColor);
        root := SkipVisited(st, if root == st then 0 else root + 1);
        first := false;
      }
      if first {
        StartOutside(states, st);
      } else {
        SweepDone(states, g, lol, nstates, nextScc, access, coaccess, st);
      }
    }

    /**
     * The inner loop of `dfs_visit` after a visit: from `from`, skip the
     * states that are not white.
     */
    method SkipVisited(ghost st: StateId, from: StateId) returns (r: StateId)
      requires g == Targets(states) && Swept(g, lol, access, st, from) && ColorsOk(lol, stateColor)
      ensures from <= r && Swept(g, lol, access, st, r) && (r < |states| ==> !Vis(lol, r))
    {
      r := from;
      while r < |states| && stateColor[r] != White
        invariant from <= r && Swept(g, lol, access, st, r)
      {
        r := r + 1;
      }
    }
  }

  // ---------------------------------------------------------------------------
  // connect

  /** The states not on a path from the start state to a final state. */
  ghost function Useless<W>(states: seq<VectorFstState<W>>, start: Option<StateId>): (del: set<StateId>)
    ensures forall x :: x in del <==> 0 <= x < |states| && !(Accessible(states, start, x) && CoAccessible(states, x))
  {
    set x | 0 <= x < |states| && !(Accessible(states, start, x) && CoAccessible(states, x))
  }

  /**
   * `connect`: runs the visitor over the FST, collects every state missing
   * the accessible or the coaccessible mark, and deletes those states.
   */
  method Connect<W>(fst: VectorFst<W>) returns (r: Result<()>)
    requires TrsInRange(fst.states) && StartInRange(fst.states, fst.start)
    modifies fst
    ensures r.Ok?
    ensures fst.states == DelStates(old(fst.states), Useless(old(fst.states), old(fst.start)))
    ensures fst.start == DelStart(old(fst.start), Useless(old(fst.states), old(fst.start)))
  {
    var visitor := new SccVisitor(fst.states, fst.start);
    visitor.DfsVisit();
    var dstates: seq<StateId> := [];
    for s := 0 to |visitor.access|
      invariant forall x :: x in dstates <==> 0 <= x < s && !(visitor.access[x] && visitor.coaccess[x])
    {
      if !visitor.access[s] || !visitor.coaccess[s] {
        dstates := dstates + [s];
      }
    }
    assert Deleted(dstates) == Useless(fst.states, fst.start);
    r := fst.DelStates(dstates);
  }
}
