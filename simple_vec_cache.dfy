/**
 * `SimpleVecCache`: the cache of a lazy FST. It records, for the start
 * state, each state's transitions and each state's final weight, whether
 * they have been computed and what they are, together with three counters
 * of known states (the largest state id seen, plus one, by each kind of
 * insertion).
 */
module SimpleVecCaches {
  import opened Wrappers
  import opened FstTypes

  /** Whether an entry has been computed, and its value. */
  datatype CacheStatus<T> = Computed(value: T) | NotComputed

  /** A state's cached transitions, with their epsilon counts. */
  datatype CacheTrs<W> = CacheTrs(trs: seq<Tr<W>>, niepsilons: nat, noepsilons: nat)

  function Max(a: nat, b: nat): nat
  {
    if a < b then b else a
  }

  /** One more than the largest `nextstate` of `t`, 0 when `t` is empty. */
  function MaxNextPlusOne<W>(t: seq<Tr<W>>): (n: nat)
    ensures forall k :: 0 <= k < |t| ==> t[k].nextstate < n
    ensures n > 0 ==> exists k :: 0 <= k < |t| && t[k].nextstate == n - 1
  {
    if t == [] then 0
    else
      var p := t[..|t| - 1];
      assert forall k :: 0 <= k < |p| ==> p[k] == t[k];
      Max(MaxNextPlusOne(p), t[|t| - 1].nextstate + 1)
  }

  /** `data` grown with `NotComputed` entries so that index `id` exists. */
  function Resized<T>(data: seq<CacheStatus<T>>, id: nat): (r: seq<CacheStatus<T>>)
    ensures |r| == Max(|data|, id + 1)
    ensures r[..|data|] == data
    ensures forall i :: |data| <= i < |r| ==> r[i] == NotComputed
  {
    if id < |data| then data else data + seq(id + 1 - |data|, _ => NotComputed)
  }

  /** The entry at `id`, `NotComputed` beyond the stored length. */
  function Get<T>(data: seq<CacheStatus<T>>, id: nat): CacheStatus<T>
  {
    if id < |data| then data[id] else NotComputed
  }

  /** The cached transitions are well formed: exact epsilon counts and targets below `known`. */
  predicate TrsEntryOk<W>(e: CacheTrs<W>, known: nat)
  {
    && e.niepsilons == CountIEps(e.trs)
    && e.noepsilons == CountOEps(e.trs)
    && forall k :: 0 <= k < |e.trs| ==> e.trs[k].nextstate < known
  }

  /** `compute_num_known_trs`: the number of transitions over all computed entries. */
  function SumKnownTrs<W>(data: seq<CacheStatus<CacheTrs<W>>>): nat
  {
    if data == [] then 0
    else SumKnownTrs(data[..|data| - 1]) + (if data[|data| - 1].Computed? then |data[|data| - 1].value.trs| else 0)
  }

  /** The transitions an entry contributes to `SumKnownTrs`. */
  function EntryTrs<W>(e: CacheStatus<CacheTrs<W>>): nat
  {
    if e.Computed? then |e.value.trs| else 0
  }

  /** Storing an entry changes the total by the difference of the two entries' transition counts. */
  lemma {:induction false} SumKnownTrsUpdate<W>(data: seq<CacheStatus<CacheTrs<W>>>, id: nat, e: CacheStatus<CacheTrs<W>>)
    requires id < |data|
    ensures SumKnownTrs(data[id := e]) + EntryTrs(data[id]) == SumKnownTrs(data) + EntryTrs(e)
    decreases |data|
  {
    var n := |data| - 1;
    if id < n {
      SumKnownTrsUpdate(data[..n], id, e);
      assert data[id := e][..n] == data[..n][id := e];
    } else {
      assert data[id := e][..n] == data[..n];
    }
  }

  /** Each entry's transitions count towards the total, which is 0 exactly when every entry adds none. */
  lemma {:induction false} SumKnownTrsBounds<W>(data: seq<CacheStatus<CacheTrs<W>>>)
    ensures forall i :: 0 <= i < |data| ==> EntryTrs(data[i]) <= SumKnownTrs(data)
    ensures SumKnownTrs(data) == 0 <==> forall i :: 0 <= i < |data| ==> EntryTrs(data[i]) == 0
    decreases |data|
  {
    if data != [] {
      var p := data[..|data| - 1];
      SumKnownTrsBounds(p);
      assert forall i :: 0 <= i < |p| ==> data[i] == p[i];
    }
  }

  /** Growing with `NotComputed` entries does not change the total. */
  lemma {:induction false} SumKnownTrsPad<W>(data: seq<CacheStatus<CacheTrs<W>>>, k: nat)
    ensures SumKnownTrs(data + seq(k, _ => NotComputed)) == SumKnownTrs(data)
    decreases k
  {
    if k > 0 {
      var d := data + seq(k, _ => NotComputed);
      SumKnownTrsPad(data, k - 1);
      assert d[..|d| - 1] == data + seq(k - 1, _ => NotComputed);
      assert d[|d| - 1] == NotComputed;
    } else {
      assert data + seq(k, _ => NotComputed) == data;
    }
  }

  // ---------------------------------------------------------------------------
  // What the cache holds, as a value, and its binary layout.

  datatype CacheData<W> = CacheData(
    start: CacheStatus<Option<StateId>>, startKnown: nat,
    trs: seq<CacheStatus<CacheTrs<W>>>, trsKnown: nat,
    finals: seq<CacheStatus<Option<W>>>, finalsKnown: nat)

  /**
   * `eq`: the start entries, the transition entries with their counter and
   * the final-weight entries with their counter agree; the start counter is
   * not compared.
   */
  predicate CacheEq<W(==)>(a: CacheData<W>, b: CacheData<W>)
  {
    a.start == b.start && a.trs == b.trs && a.trsKnown == b.trsKnown
    && a.finals == b.finals && a.finalsKnown == b.finalsKnown
  }

  /** An item of the serialised stream: a `u64`, or one serialised entry. */
  datatype Token<W> =
    | U64(n: nat)
    | StartToken(s: CacheStatus<Option<StateId>>)
    | TrsToken(e: CacheStatus<CacheTrs<W>>)
    | FinalToken(f: CacheStatus<Option<W>>)

  function TrsTokens<W>(trs: seq<CacheStatus<CacheTrs<W>>>): (r: seq<Token<W>>)
    ensures |r| == |trs| && forall i :: 0 <= i < |trs| ==> r[i] == TrsToken(trs[i])
  {
    seq(|trs|, i requires 0 <= i < |trs| => TrsToken(trs[i]))
  }

  function FinalTokens<W>(finals: seq<CacheStatus<Option<W>>>): (r: seq<Token<W>>)
    ensures |r| == |finals| && forall i :: 0 <= i < |finals| ==> r[i] == FinalToken(finals[i])
  {
    seq(|finals|, i requires 0 <= i < |finals| => FinalToken(finals[i]))
  }

  /**
   * `write_simple_vec_cache`: the start counter and entry, then the
   * transitions counter, their number and each entry, then the final-weight
   * counter, their number and each entry.
   */
  function Encoded<W>(d: CacheData<W>): seq<Token<W>>
  {
    [U64(d.startKnown), StartToken(d.start), U64(d.trsKnown), U64(|d.trs|)] + TrsTokens(d.trs)
    + [U64(d.finalsKnown), U64(|d.finals|)] + FinalTokens(d.finals)
  }

  /** `count(parse_vec_cache_trs, n)`. */
  function ParseTrsEntries<W>(ts: seq<Token<W>>, n: nat): (r: Option<(seq<CacheStatus<CacheTrs<W>>>, seq<Token<W>>)>)
    ensures r.Some? <==> n <= |ts| && forall k :: 0 <= k < n ==> ts[k].TrsToken?
    ensures r.Some? ==> TrsTokens(r.value.0) == ts[..n] && r.value.1 == ts[n..]
    decreases n
  {
    if n == 0 then Some(([], ts))
    else if ts == [] || !ts[0].TrsToken? then None
    else match ParseTrsEntries(ts[1..], n - 1)
      case None => None
      case Some((es, rest)) => Some(([ts[0].e] + es, rest))
  }

  /** `count(parse_vec_cache_final_weight, n)`. */
  function ParseFinalEntries<W>(ts: seq<Token<W>>, n: nat): (r: Option<(seq<CacheStatus<Option<W>>>, seq<Token<W>>)>)
    ensures r.Some? <==> n <= |ts| && forall k :: 0 <= k < n ==> ts[k].FinalToken?
    ensures r.Some? ==> FinalTokens(r.value.0) == ts[..n] && r.value.1 == ts[n..]
    decreases n
  {
    if n == 0 then Some(([], ts))
    else if ts == [] || !ts[0].FinalToken? then None
    else match ParseFinalEntries(ts[1..], n - 1)
      case None => None
      case Some((es, rest)) => Some(([ts[0].f] + es, rest))
  }

  /** `parse_simple_vec_cache`: reads the fields in the order they are written. */
  function ParseSimpleVecCache<W>(ts: seq<Token<W>>): (r: Option<(CacheData<W>, seq<Token<W>>)>)
    ensures r.Some? ==> Encoded(r.value.0) + r.value.1 == ts
  {
    if |ts| < 4 || !ts[0].U64? || !ts[1].StartToken? || !ts[2].U64? || !ts[3].U64? then None
    else match ParseTrsEntries(ts[4..], ts[3].n)
      case None => None
      case Some((trs, ts')) =>
        if |ts'| < 2 || !ts'[0].U64? || !ts'[1].U64? then None
        else match ParseFinalEntries(ts'[2..], ts'[1].n)
          case None => None
          case Some((finals, rest)) =>
            Some((CacheData(ts[1].s, ts[0].n, trs, ts[2].n, finals, ts'[0].n), rest))
  }

  lemma {:induction false} ParseTrsEntriesRoundTrip<W>(trs: seq<CacheStatus<CacheTrs<W>>>, rest: seq<Token<W>>)
    ensures ParseTrsEntries(TrsTokens(trs) + rest, |trs|) == Some((trs, rest))
    decreases |trs|
  {
    if trs != [] {
      var ts := TrsTokens(trs) + rest;
      ParseTrsEntriesRoundTrip(trs[1..], rest);
      assert ts[0] == TrsToken(trs[0]);
      assert ts[1..] == TrsTokens(trs[1..]) + rest;
      assert [trs[0]] + trs[1..] == trs;
    } else {
      assert TrsTokens(trs) + rest == rest;
    }
  }

  lemma {:induction false} ParseFinalEntriesRoundTrip<W>(finals: seq<CacheStatus<Option<W>>>, rest: seq<Token<W>>)
    ensures ParseFinalEntries(FinalTokens(finals) + rest, |finals|) == Some((finals, rest))
    decreases |finals|
  {
    if finals != [] {
      var ts := FinalTokens(finals) + rest;
      ParseFinalEntriesRoundTrip(finals[1..], rest);
      assert ts[0] == FinalToken(finals[0]);
      assert ts[1..] == FinalTokens(finals[1..]) + rest;
      assert [finals[0]] + finals[1..] == finals;
    } else {
      assert FinalTokens(finals) + rest == rest;
    }
  }

  /** Parsing what was written gives back the same cache and leaves what follows. */
  lemma ParseWriteRoundTrip<W>(d: CacheData<W>, rest: seq<Token<W>>)
    ensures ParseSimpleVecCache(Encoded(d) + rest) == Some((d, rest))
  {
    var head := [U64(d.startKnown), StartToken(d.start), U64(d.trsKnown), U64(|d.trs|)];
    var tail := [U64(d.finalsKnown), U64(|d.finals|)] + (FinalTokens(d.finals) + rest);
    var ts := head + (TrsTokens(d.trs) + tail);
    assert Encoded(d) + rest == ts;
    assert ts[4..] == TrsTokens(d.trs) + tail;
    ParseTrsEntriesRoundTrip(d.trs, tail);
    assert tail[2..] == FinalTokens(d.finals) + rest;
    ParseFinalEntriesRoundTrip(d.finals, rest);
  }

  /** So a cache read back from its own serialisation is `eq` to it. */
  lemma ReadWriteEq<W>(d: CacheData<W>)
    ensures ParseSimpleVecCache(Encoded(d)).Some?
    ensures CacheEq(ParseSimpleVecCache(Encoded(d)).value.0, d)
  {
    ParseWriteRoundTrip(d, []);
    assert Encoded(d) + [] == Encoded(d);
  }

  /** `eq` does not see the start counter: two caches differing only there are equal. */
  lemma EqIgnoresStartKnown<W>(d: CacheData<W>)
    ensures CacheEq(d, d.(startKnown := d.startKnown + 1))
    ensures d != d.(startKnown := d.startKnown + 1)
  {
  }

  // ---------------------------------------------------------------------------
  // The cache.

  class SimpleVecCache<W> {
    var start: CacheStatus<Option<StateId>>
    var startKnown: nat
    var trs: seq<CacheStatus<CacheTrs<W>>>
    var trsKnown: nat
    var finalWeights: seq<CacheStatus<Option<W>>>
    var finalsKnown: nat

    /**
     * Each counter is above every state its kind of insertion has seen: the
     * start, the targets of cached transitions, the indices of cached final
     * weights; and cached epsilon counts are exact.
     */
    ghost predicate Valid()
      reads this
    {
      && (start.Computed? && start.value.Some? ==> start.value.value < startKnown)
      && (forall i :: 0 <= i < |trs| && trs[i].Computed? ==> TrsEntryOk(trs[i].value, trsKnown))
      && |finalWeights| <= finalsKnown
    }

    function Data(): CacheData<W>
      reads this
    {
      CacheData(start, startKnown, trs, trsKnown, finalWeights, finalsKnown)
    }

    /** `default`: nothing computed, no state known. */
    constructor ()
      ensures Valid()
      ensures Data() == CacheData(NotComputed, 0, [], 0, [], 0)
    {
      start := NotComputed;
      startKnown := 0;
      trs := [];
      trsKnown := 0;
      finalWeights := [];
      finalsKnown := 0;
    }

    /** `clear`: back to the empty cache. */
    method Clear()
      modifies this
      ensures Valid()
      ensures Data() == CacheData(NotComputed, 0, [], 0, [], 0)
    {
      start := NotComputed;
      startKnown := 0;
      trs := [];
      trsKnown := 0;
      finalWeights := [];
      finalsKnown := 0;
    }

    /** `get_start`: a cached start state is one of the known states. */
    function GetStart(): (r: CacheStatus<Option<StateId>>)
      reads this
      ensures Valid() && r.Computed? && r.value.Some? ==> r.value.value < NumKnownStates()
    {
      start
    }

    /** `insert_start`: the start is computed; a start state raises the start counter past it. */
    method InsertStart(id: Option<StateId>)
      requires Valid()
      modifies this
      ensures Valid()
      ensures start == Computed(id)
      ensures startKnown == if id.Some? then Max(old(startKnown), id.value + 1) else old(startKnown)
      ensures trs == old(trs) && trsKnown == old(trsKnown)
      ensures finalWeights == old(finalWeights) && finalsKnown == old(finalsKnown)
    {
      if id.Some? {
        startKnown := Max(startKnown, id.value + 1);
      }
      start := Computed(id);
    }

    /** `get_trs`. */
    function GetTrs(id: StateId): (r: CacheStatus<seq<Tr<W>>>)
      reads this
      ensures r.Computed? <==> id < |trs| && trs[id].Computed?
      ensures r.Computed? ==> r.value == trs[id].value.trs
    {
      match Get(trs, id)
      case Computed(e) => Computed(e.trs)
      case NotComputed => NotComputed
    }

    /**
     * `insert_trs`: the entry of `id` becomes the transitions with their
     * epsilon counts, the vector growing with `NotComputed` entries if
     * needed; the transitions counter rises past every target. The id
     * itself is not counted.
     */
    method InsertTrs(id: StateId, t: seq<Tr<W>>)
      requires Valid()
      modifies this
      ensures Valid()
      ensures trs == Resized(old(trs), id)[id := Computed(CacheTrs(t, CountIEps(t), CountOEps(t)))]
      ensures trsKnown == Max(old(trsKnown), MaxNextPlusOne(t))
      ensures start == old(start) && startKnown == old(startKnown)
      ensures finalWeights == old(finalWeights) && finalsKnown == old(finalsKnown)
    {
      var niepsilons := 0;
      var noepsilons := 0;
      for i := 0 to |t|
        invariant niepsilons == CountIEps(t[..i])
        invariant noepsilons == CountOEps(t[..i])
        invariant trsKnown == Max(old(trsKnown), MaxNextPlusOne(t[..i]))
        invariant start == old(start) && startKnown == old(startKnown) && trs == old(trs)
        invariant finalWeights == old(finalWeights) && finalsKnown == old(finalsKnown)
      {
        assert t[..i + 1][..i] == t[..i];
        trsKnown := Max(trsKnown, t[i].nextstate + 1);
        if t[i].ilabel == EPS_LABEL {
          niepsilons := niepsilons + 1;
        }
        if t[i].olabel == EPS_LABEL {
          noepsilons := noepsilons + 1;
        }
      }
      assert t[..|t|] == t;
      if id >= |trs| {
        trs := trs + seq(id + 1 - |trs|, _ => NotComputed);
      }
      trs := trs[id := Computed(CacheTrs(t, niepsilons, noepsilons))];
      InsertTrsValid(old(trs), old(trsKnown), id, t);
    }

    /** `get_final_weight`: `NotComputed` beyond the stored length. */
    function GetFinalWeight(id: StateId): (r: CacheStatus<Option<W>>)
      reads this
      ensures id >= |finalWeights| ==> r == NotComputed
      ensures id < |finalWeights| ==> r == finalWeights[id]
    {
      Get(finalWeights, id)
    }

    /**
     * `insert_final_weight`: the entry of `id` becomes the weight, the
     * vector growing with `NotComputed` entries if needed; the final-weight
     * counter rises past `id`.
     */
    method InsertFinalWeight(id: StateId, weight: Option<W>)
      requires Valid()
      modifies this
      ensures Valid()
      ensures finalWeights == Resized(old(finalWeights), id)[id := Computed(weight)]
      ensures finalsKnown == Max(old(finalsKnown), id + 1)
      ensures start == old(start) && startKnown == old(startKnown)
      ensures trs == old(trs) && trsKnown == old(trsKnown)
    {
      finalsKnown := Max(finalsKnown, id + 1);
      if id >= |finalWeights| {
        finalWeights := finalWeights + seq(id + 1 - |finalWeights|, _ => NotComputed);
      }
      finalWeights := finalWeights[id := Computed(weight)];
    }

    /** `num_known_states`: the largest of the three counters. */
    function NumKnownStates(): (n: nat)
      reads this
      ensures n >= startKnown && n >= trsKnown && n >= finalsKnown
      ensures n == startKnown || n == trsKnown || n == finalsKnown
    {
      Max(Max(Max(0, startKnown), trsKnown), finalsKnown)
    }

    /**
     * `compute_num_known_trs`: no computed entry has more transitions than
     * the total, which is 0 exactly when every computed entry is empty.
     */
    function ComputeNumKnownTrs(): (n: nat)
      reads this
      ensures forall id: StateId :: GetTrs(id).Computed? ==> |GetTrs(id).value| <= n
      ensures n == 0 <==> forall id: StateId :: GetTrs(id).Computed? ==> GetTrs(id).value == []
    {
      SumKnownTrsBounds(trs);
      assert forall i :: 0 <= i < |trs| ==> EntryTrs(trs[i]) == if GetTrs(i).Computed? then |GetTrs(i).value| else 0;
      SumKnownTrs(trs)
    }

    /** `num_trs`: the number of cached transitions of `id`, if computed. */
    function NumTrs(id: StateId): (r: Option<nat>)
      reads this
      ensures r.Some? <==> GetTrs(id).Computed?
      ensures r.Some? ==> r.value == |GetTrs(id).value|
    {
      match Get(trs, id)
      case Computed(e) => Some(|e.trs|)
      case NotComputed => None
    }

    /** `num_input_epsilons`: the cached count, which is that of the cached transitions. */
    function NumInputEpsilons(id: StateId): (r: Option<nat>)
      requires Valid()
      reads this
      ensures r.Some? <==> GetTrs(id).Computed?
      ensures r.Some? ==> r.value == CountIEps(GetTrs(id).value)
    {
      match Get(trs, id)
      case Computed(e) => Some(e.niepsilons)
      case NotComputed => None
    }

    /** `num_output_epsilons`: the cached count, which is that of the cached transitions. */
    function NumOutputEpsilons(id: StateId): (r: Option<nat>)
      requires Valid()
      reads this
      ensures r.Some? <==> GetTrs(id).Computed?
      ensures r.Some? ==> r.value == CountOEps(GetTrs(id).value)
    {
      match Get(trs, id)
      case Computed(e) => Some(e.noepsilons)
      case NotComputed => None
    }

    /** `len_trs`: no state at or beyond it has computed transitions. */
    function LenTrs(): (n: nat)
      reads this
      ensures forall id: StateId :: id >= n ==> GetTrs(id) == NotComputed
    {
      |trs|
    }

    /**
     * `len_final_weights`: no state at or beyond it has a computed final
     * weight, and it never exceeds the known states.
     */
    function LenFinalWeights(): (n: nat)
      reads this
      ensures forall id: StateId :: id >= n ==> GetFinalWeight(id) == NotComputed
      ensures Valid() ==> n <= NumKnownStates()
    {
      |finalWeights|
    }

    /** `write_simple_vec_cache`: the stream of the cache's fields, entry by entry. */
    method Write() returns (out: seq<Token<W>>)
      ensures out == Encoded(Data())
    {
      out := [U64(startKnown), StartToken(start), U64(trsKnown)];
      var numComputedStates := LenTrs();
      out := out + [U64(numComputedStates)];
      ghost var head := out;
      for s := 0 to numComputedStates
        invariant out == head + TrsTokens(trs[..s])
      {
        assert TrsTokens(trs[..s + 1]) == TrsTokens(trs[..s]) + [TrsToken(trs[s])];
        out := out + [TrsToken(Get(trs, s))];
      }
      assert trs[..|trs|] == trs;
      out := out + [U64(finalsKnown)];
      var numFinalStates := LenFinalWeights();
      out := out + [U64(numFinalStates)];
      head := out;
      for f := 0 to numFinalStates
        invariant out == head + FinalTokens(finalWeights[..f])
      {
        assert FinalTokens(finalWeights[..f + 1]) == FinalTokens(finalWeights[..f]) + [FinalToken(finalWeights[f])];
        out := out + [FinalToken(GetFinalWeight(f))];
      }
      assert finalWeights[..|finalWeights|] == finalWeights;
    }
  }

  /** After `insert_trs`, the cache is still valid. */
  lemma InsertTrsValid<W>(trs: seq<CacheStatus<CacheTrs<W>>>, known: nat, id: StateId, t: seq<Tr<W>>)
    requires forall i :: 0 <= i < |trs| && trs[i].Computed? ==> TrsEntryOk(trs[i].value, known)
    ensures var trs' := Resized(trs, id)[id := Computed(CacheTrs(t, CountIEps(t), CountOEps(t)))];
            forall i :: 0 <= i < |trs'| && trs'[i].Computed? ==> TrsEntryOk(trs'[i].value, Max(known, MaxNextPlusOne(t)))
  {
    var known' := Max(known, MaxNextPlusOne(t));
    forall i | 0 <= i < |trs| && trs[i].Computed?
      ensures TrsEntryOk(trs[i].value, known')
    {
    }
  }

  /**
   * Every state the cache has seen is below `num_known_states`: the start,
   * each target of cached transitions and each index of a cached final
   * weight.
   */
  lemma KnownStatesBound<W>(c: SimpleVecCache<W>)
    requires c.Valid()
    ensures c.start.Computed? && c.start.value.Some? ==> c.start.value.value < c.NumKnownStates()
    ensures forall id: StateId, k :: c.GetTrs(id).Computed? && 0 <= k < |c.GetTrs(id).value| ==> c.GetTrs(id).value[k].nextstate < c.NumKnownStates()
    ensures forall id: StateId :: c.GetFinalWeight(id).Computed? ==> id < c.NumKnownStates()
  {
  }

  /**
   * `insert_trs` for a state not yet computed raises `compute_num_known_trs`
   * by the number of transitions inserted.
   */
  lemma InsertTrsCount<W>(trs: seq<CacheStatus<CacheTrs<W>>>, id: StateId, t: seq<Tr<W>>)
    requires Get(trs, id) == NotComputed
    ensures SumKnownTrs(Resized(trs, id)[id := Computed(CacheTrs(t, CountIEps(t), CountOEps(t)))]) == SumKnownTrs(trs) + |t|
  {
    var r := Resized(trs, id);
    if id >= |trs| {
      SumKnownTrsPad(trs, id + 1 - |trs|);
    }
    SumKnownTrsUpdate(r, id, Computed(CacheTrs(t, CountIEps(t), CountOEps(t))));
  }
}
