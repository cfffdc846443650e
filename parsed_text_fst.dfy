/**
 * `ParsedTextFst`: what is left of an FST in the AT&T text format once its
 * lines have been read as rows — the transitions and the final states, in
 * the order of the text, and the start state, which is the state named on
 * the first line.
 */
module ParsedTextFsts {
  import opened Wrappers
  import opened FstTypes

  /** A line `state nextstate ilabel olabel [weight]`. */
  datatype Transition<W> = Transition(state: StateId, ilabel: Label, olabel: Label, weight: Option<W>, nextstate: StateId)

  /** A line `state [weight]`. */
  datatype FinalState<W> = FinalState(state: StateId, weight: Option<W>)

  /** One parsed line; a final state whose weight is written `Infinity` is kept apart. */
  datatype RowParsed<W> =
    | TransitionRow(t: Transition<W>)
    | FinalStateRow(f: FinalState<W>)
    | InfinityFinalState(s: StateId)

  datatype ParsedTextFst<W> = ParsedTextFst(transitions: seq<Transition<W>>, finalStates: seq<FinalState<W>>, startState: Option<StateId>)

  /** The state a row names, whatever its kind. */
  function RowState<W>(row: RowParsed<W>): StateId
  {
    match row
    case TransitionRow(t) => t.state
    case FinalStateRow(f) => f.state
    case InfinityFinalState(s) => s
  }

  /** The transition rows of `v`, in order. */
  function TransitionsOf<W>(v: seq<RowParsed<W>>): seq<Transition<W>>
  {
    if v == [] then []
    else TransitionsOf(v[..|v| - 1]) + (if v[|v| - 1].TransitionRow? then [v[|v| - 1].t] else [])
  }

  /** The final-state rows of `v` with a finite (or no) weight, in order. */
  function FinalsOf<W>(v: seq<RowParsed<W>>): seq<FinalState<W>>
  {
    if v == [] then []
    else FinalsOf(v[..|v| - 1]) + (if v[|v| - 1].FinalStateRow? then [v[|v| - 1].f] else [])
  }

  /** The number of `Infinity` final rows of `v`. */
  function InfinityRows<W>(v: seq<RowParsed<W>>): nat
  {
    if v == [] then 0
    else InfinityRows(v[..|v| - 1]) + (if v[|v| - 1].InfinityFinalState? then 1 else 0)
  }

  /** The container the rows `v` describe. */
  function FromRows<W>(v: seq<RowParsed<W>>): ParsedTextFst<W>
  {
    ParsedTextFst(TransitionsOf(v), FinalsOf(v), if v == [] then None else Some(RowState(v[0])))
  }

  /**
   * `from_vec_rows_parsed`: the start is the state of the first row, of
   * whichever kind; then transition rows and final rows are pushed onto
   * their lists in order and `Infinity` finals are skipped.
   */
  method FromVecRowsParsed<W>(v: seq<RowParsed<W>>) returns (p: ParsedTextFst<W>)
    ensures p == FromRows(v)
  {
    var start := if |v| > 0 then Some(RowState(v[0])) else None;
    var transitions: seq<Transition<W>> := [];
    var finals: seq<FinalState<W>> := [];
    for i := 0 to |v|
      invariant transitions == TransitionsOf(v[..i])
      invariant finals == FinalsOf(v[..i])
    {
      assert v[..i + 1][..i] == v[..i];
      match v[i] {
        case TransitionRow(t) => transitions := transitions + [t];
        case FinalStateRow(f) => finals := finals + [f];
        case InfinityFinalState(_) =>
      }
    }
    assert v[..|v|] == v;
    p := ParsedTextFst(transitions, finals, start);
  }

  /** `start`. */
  function Start<W>(p: ParsedTextFst<W>): Option<StateId>
  {
    p.startState
  }

  /**
   * Every row lands in exactly one place: a transition row is in the
   * transitions, a final row in the finals, and the three counts add up to
   * the number of rows, so nothing but `Infinity` finals is dropped.
   */
  lemma {:induction false} RowsAccounted<W>(v: seq<RowParsed<W>>)
    ensures |TransitionsOf(v)| + |FinalsOf(v)| + InfinityRows(v) == |v|
    ensures forall t :: t in TransitionsOf(v) <==> TransitionRow(t) in v
    ensures forall f :: f in FinalsOf(v) <==> FinalStateRow(f) in v
    decreases |v|
  {
    if v != [] {
      var u := v[..|v| - 1];
      RowsAccounted(u);
      assert v == u + [v[|v| - 1]];
    }
  }

  /** The lists keep the text's order: rows appended later come after. */
  lemma {:induction false} RowsInOrder<W>(v: seq<RowParsed<W>>, w: seq<RowParsed<W>>)
    ensures TransitionsOf(v + w) == TransitionsOf(v) + TransitionsOf(w)
    ensures FinalsOf(v + w) == FinalsOf(v) + FinalsOf(w)
    decreases |w|
  {
    if w == [] {
      assert v + w == v;
    } else {
      var w' := w[..|w| - 1];
      RowsInOrder(v, w');
      assert (v + w)[..|v + w| - 1] == v + w';
    }
  }

  // ---------------------------------------------------------------------------
  // num_states

  /** Every state the container mentions: sources, targets, final states and the start. */
  function MentionedStates<W>(p: ParsedTextFst<W>): seq<StateId>
  {
    Project(p.transitions, SourceOf) + Project(p.transitions, TargetOf) + Project(p.finalStates, FinalStateOf)
    + (if p.startState.Some? then [p.startState.value] else [])
  }

  function SourceOf<W>(t: Transition<W>): StateId { t.state }

  function TargetOf<W>(t: Transition<W>): StateId { t.nextstate }

  function FinalStateOf<W>(f: FinalState<W>): StateId { f.state }

  /** The state `f` picks out of each row, in the order of the rows. */
  function Project<T>(rows: seq<T>, f: T -> StateId): (r: seq<StateId>)
    ensures |r| == |rows| && forall i :: 0 <= i < |rows| ==> r[i] == f(rows[i])
  {
    seq(|rows|, i requires 0 <= i < |rows| => f(rows[i]))
  }

  /** The largest element of a non-empty list. */
  function MaxOf(s: seq<StateId>): (m: StateId)
    requires s != []
    ensures m in s && forall x :: x in s ==> x <= m
  {
    if |s| == 1 then s[0]
    else
      var m := MaxOf(s[1..]);
      assert forall x :: x in s ==> x == s[0] || x in s[1..];
      if s[0] < m then m else s[0]
  }

  /**
   * `num_states`: one more than the largest state mentioned, 0 when
   * nothing is mentioned: the least bound above every mentioned state.
   */
  function NumStates<W>(p: ParsedTextFst<W>): (n: nat)
    ensures n == 0 <==> p.transitions == [] && p.finalStates == [] && p.startState.None?
    ensures forall t :: t in p.transitions ==> t.state < n && t.nextstate < n
    ensures forall f :: f in p.finalStates ==> f.state < n
    ensures p.startState.Some? ==> p.startState.value < n
    ensures n > 0 ==> n - 1 in MentionedStates(p)
  {
    var all := MentionedStates(p);
    MentionedStatesCover(p);
    if all == [] then 0 else MaxOf(all) + 1
  }

  /** Every state of the container is among `MentionedStates`, and nothing else is. */
  lemma MentionedStatesCover<W>(p: ParsedTextFst<W>)
    ensures MentionedStates(p) == [] <==> p.transitions == [] && p.finalStates == [] && p.startState.None?
    ensures forall t :: t in p.transitions ==> t.state in MentionedStates(p) && t.nextstate in MentionedStates(p)
    ensures forall f :: f in p.finalStates ==> f.state in MentionedStates(p)
    ensures p.startState.Some? ==> p.startState.value in MentionedStates(p)
  {
    var a, b, c := Project(p.transitions, SourceOf), Project(p.transitions, TargetOf), Project(p.finalStates, FinalStateOf);
    forall t | t in p.transitions ensures t.state in a && t.nextstate in b {
      var i :| 0 <= i < |p.transitions| && p.transitions[i] == t;
      assert a[i] == t.state && b[i] == t.nextstate;
    }
    forall f | f in p.finalStates ensures f.state in c {
      var i :| 0 <= i < |p.finalStates| && p.finalStates[i] == f;
      assert c[i] == f.state;
    }
  }

  /**
   * The start of the parsed text is always among the states counted, even
   * when the first line is an `Infinity` final that is otherwise dropped.
   */
  lemma FirstRowCounted<W>(v: seq<RowParsed<W>>)
    requires v != []
    ensures Start(FromRows(v)) == Some(RowState(v[0]))
    ensures RowState(v[0]) < NumStates(FromRows(v))
  {
  }

  // ---------------------------------------------------------------------------
  // The rows of the three parsing tests (the tropical weights 0.3 and 0.0
  // written as the integers 3 and 0).

  /** What a single row contributes. */
  lemma OneRow<W>(r: RowParsed<W>)
    ensures TransitionsOf([r]) == (if r.TransitionRow? then [r.t] else [])
    ensures FinalsOf([r]) == (if r.FinalStateRow? then [r.f] else [])
  {
    assert [r][..0] == [];
  }

  /** Lines out of order: transition, final, transition. */
  lemma NotContiguousExample()
    ensures FromRows<int>([TransitionRow(Transition(0, 0, 0, None, 2)), FinalStateRow(FinalState(1, None)),
                           TransitionRow(Transition(2, 12, 25, None, 1))])
            == ParsedTextFst([Transition(0, 0, 0, None, 2), Transition(2, 12, 25, None, 1)], [FinalState(1, None)], Some(0))
  {
    var a: RowParsed<int> := TransitionRow(Transition(0, 0, 0, None, 2));
    var b: RowParsed<int> := FinalStateRow(FinalState(1, None));
    var c: RowParsed<int> := TransitionRow(Transition(2, 12, 25, None, 1));
    assert [a, b, c] == [a] + [b] + [c];
    OneRow(a); OneRow(b); OneRow(c);
    RowsInOrder([a], [b]);
    RowsInOrder([a] + [b], [c]);
  }

  /** A last line without its newline: one transition, one final. */
  lemma NoTrailingNewlineExample()
    ensures FromRows<int>([TransitionRow(Transition(0, 0, 0, None, 1)), FinalStateRow(FinalState(1, None))])
            == ParsedTextFst([Transition(0, 0, 0, None, 1)], [FinalState(1, None)], Some(0))
  {
    var a: RowParsed<int> := TransitionRow(Transition(0, 0, 0, None, 1));
    var b: RowParsed<int> := FinalStateRow(FinalState(1, None));
    assert [a, b] == [a] + [b];
    OneRow(a); OneRow(b);
    RowsInOrder([a], [b]);
  }

  /** An `Infinity` final is dropped; a weighted final is kept. */
  lemma InfinityFinalExample()
    ensures FromRows<int>([TransitionRow(Transition(0, 12, 25, Some(3), 1)), InfinityFinalState(1),
                           FinalStateRow(FinalState(0, Some(0)))])
            == ParsedTextFst([Transition(0, 12, 25, Some(3), 1)], [FinalState(0, Some(0))], Some(0))
  {
    var a: RowParsed<int> := TransitionRow(Transition(0, 12, 25, Some(3), 1));
    var b: RowParsed<int> := InfinityFinalState(1);
    var c: RowParsed<int> := FinalStateRow(FinalState(0, Some(0)));
    assert [a, b, c] == [a] + [b] + [c];
    OneRow(a); OneRow(b); OneRow(c);
    RowsInOrder([a], [b]);
    RowsInOrder([a] + [b], [c]);
  }
}
