/**
 * `encode` / `decode`: an FST transducer is turned into an automaton by
 * replacing the input label of each transition with a code for its
 * (input label, output label, weight) tuple, the parts kept in the tuple
 * depending on the flags. The `EncodeTableMut` hands out the codes, 1, 2,
 * 3, ..., and remembers the tuple behind each.
 */
module Encodes {
  import opened Wrappers
  import opened FstTypes
  import opened TrMaps

  /** What is folded into the code besides the input label. */
  datatype EncodeFlags = EncodeFlags(encodeLabels: bool, encodeWeights: bool)

  datatype EncodeTuple<W> = EncodeTuple(ilabel: Label, olabel: Label, weight: W)

  /** `tr_to_tuple`: the output label only when labels are encoded, the weight only when weights are, else epsilon and One. */
  function TrToTuple<W>(f: EncodeFlags, one: W, tr: Tr<W>): EncodeTuple<W>
  {
    EncodeTuple(tr.ilabel, if f.encodeLabels then tr.olabel else EPS_LABEL, if f.encodeWeights then tr.weight else one)
  }

  /** `final_tr_to_tuple`: the same for a final pseudo-transition. */
  function FinalTrToTuple<W>(f: EncodeFlags, one: W, ft: FinalTr<W>): EncodeTuple<W>
  {
    EncodeTuple(ft.ilabel, if f.encodeLabels then ft.olabel else EPS_LABEL, if f.encodeWeights then ft.weight else one)
  }

  /**
   * The transition the encode mapper writes for code `id`: the code as input
   * label, as output label too when labels are encoded, and weight One when
   * weights are encoded.
   */
  function EncodedTr<W>(f: EncodeFlags, one: W, tr: Tr<W>, id: Label): Tr<W>
  {
    Tr(id, if f.encodeLabels then id else tr.olabel, if f.encodeWeights then one else tr.weight, tr.nextstate)
  }

  /** The final pseudo-transition the encode mapper writes for code `id` (weights encoded). */
  function EncodedFinalTr<W>(f: EncodeFlags, one: W, ft: FinalTr<W>, id: Label): FinalTr<W>
  {
    FinalTr(id, if f.encodeLabels then id else ft.olabel, one)
  }

  /** The transition the decode mapper writes from the tuple behind `tr`'s input label. */
  function DecodedTr<W>(f: EncodeFlags, tr: Tr<W>, t: EncodeTuple<W>): Tr<W>
  {
    Tr(t.ilabel, if f.encodeLabels then t.olabel else tr.olabel, if f.encodeWeights then t.weight else tr.weight, tr.nextstate)
  }

  /**
   * Decoding an encoded transition with the tuple it was encoded from gives
   * back the transition, whatever the flags and the code; the tuple keeps
   * exactly the parts the code stands for.
   */
  lemma TrRoundTrip<W>(f: EncodeFlags, one: W, tr: Tr<W>, id: Label)
    ensures DecodedTr(f, EncodedTr(f, one, tr, id), TrToTuple(f, one, tr)) == tr
    ensures TrToTuple(f, one, tr).ilabel == tr.ilabel
    ensures f.encodeLabels ==> TrToTuple(f, one, tr).olabel == tr.olabel
    ensures f.encodeWeights ==> TrToTuple(f, one, tr).weight == tr.weight
  {
  }

  /**
   * Two transitions that agree on input label, destination and on the
   * parts outside the code, and that share a code, are the same transition:
   * encoding loses nothing.
   */
  lemma EncodedTrInjective<W>(f: EncodeFlags, one: W, a: Tr<W>, b: Tr<W>, ida: Label, idb: Label)
    requires TrToTuple(f, one, a) == TrToTuple(f, one, b) <==> ida == idb
    requires EncodedTr(f, one, a, ida) == EncodedTr(f, one, b, idb)
    ensures a == b
  {
    TrRoundTrip(f, one, a, ida);
    TrRoundTrip(f, one, b, idb);
  }

  class EncodeTableMut<W(==)> {
    const flags: EncodeFlags
    /** The semiring's One, which stands for the weight when weights are not encoded. */
    const one: W
    var idToTuple: seq<EncodeTuple<W>>
    var tupleToId: map<EncodeTuple<W>, nat>

    /** The two maps are inverse: tuple `idToTuple[i]` is stored under index `i`, and only those. */
    ghost predicate Valid()
      reads this
    {
      && (forall t :: t in tupleToId ==> tupleToId[t] < |idToTuple| && idToTuple[tupleToId[t]] == t)
      && (forall i :: 0 <= i < |idToTuple| ==> idToTuple[i] in tupleToId && tupleToId[idToTuple[i]] == i)
    }

    /** `EncodeTableMut::new`: an empty table. */
    constructor (flags: EncodeFlags, one: W)
      ensures Valid() && this.flags == flags && this.one == one
      ensures idToTuple == [] && tupleToId == map[]
    {
      this.flags := flags;
      this.one := one;
      idToTuple := [];
      tupleToId := map[];
    }

    /**
     * `encode`: a tuple already in the table gets its old code back and
     * nothing changes; a new tuple is appended and gets the next code. A code
     * is the index plus one, so it is never epsilon, and decodes to the tuple.
     */
    method Encode(tuple: EncodeTuple<W>) returns (id: nat)
      modifies this
      ensures id >= 1
      ensures tuple in old(tupleToId) ==>
                id == old(tupleToId[tuple]) + 1 && idToTuple == old(idToTuple) && tupleToId == old(tupleToId)
      ensures tuple !in old(tupleToId) ==>
                && id == |old(idToTuple)| + 1
                && idToTuple == old(idToTuple) + [tuple]
                && tupleToId == old(tupleToId)[tuple := |old(idToTuple)|]
      ensures old(Valid()) ==> Valid() && id <= |idToTuple| && Decode(id) == Some(tuple)
    {
      if tuple in tupleToId {
        id := tupleToId[tuple] + 1;
      } else {
        var newId := |idToTuple|;
        idToTuple := idToTuple + [tuple];
        tupleToId := tupleToId[tuple := newId];
        id := newId + 1;
      }
    }

    /**
     * `decode`: the tuple behind code `id`, none for a code past the table.
     * Code 0 is below the first code; the subtraction underflows there.
     */
    function Decode(id: nat): (r: Option<EncodeTuple<W>>)
      requires id >= 1
      reads this
      ensures r.Some? <==> id <= |idToTuple|
    {
      if id - 1 < |idToTuple| then Some(idToTuple[id - 1]) else None
    }

    /** On a valid table every stored code decodes to a tuple whose code it is, and distinct tuples have distinct codes. */
    lemma DecodeEncodes(id: nat, t1: EncodeTuple<W>, t2: EncodeTuple<W>)
      requires Valid() && 1 <= id <= |idToTuple|
      ensures Decode(id).value in tupleToId && tupleToId[Decode(id).value] + 1 == id
      ensures t1 in tupleToId && t2 in tupleToId && t1 != t2 ==> tupleToId[t1] != tupleToId[t2]
    {
      if t1 in tupleToId && t2 in tupleToId && t1 != t2 {
        assert idToTuple[tupleToId[t1]] == t1 && idToTuple[tupleToId[t2]] == t2;
      }
    }
  }

  /** `EncodeMapper`: the `TrMapper` of `encode`, which fills its table as it goes. */
  class EncodeMapper<W(==)> {
    const table: EncodeTableMut<W>

    constructor (flags: EncodeFlags, one: W)
      ensures fresh(table) && table.Valid() && table.flags == flags && table.one == one && table.idToTuple == []
    {
      table := new EncodeTableMut(flags, one);
    }

    /**
     * `tr_map`: the transition's tuple is encoded and the transition
     * replaced by its encoded form, which decodes back to it with the table
     * as it is now or after any later growth.
     */
    method TrMap(tr: Tr<W>) returns (r: Tr<W>)
      requires table.Valid()
      modifies table
      ensures table.Valid() && old(table.idToTuple) <= table.idToTuple
      ensures 1 <= r.ilabel <= |table.idToTuple|
      ensures r == EncodedTr(table.flags, table.one, tr, r.ilabel)
      ensures table.idToTuple[r.ilabel - 1] == TrToTuple(table.flags, table.one, tr)
      ensures DecodedTr(table.flags, r, table.idToTuple[r.ilabel - 1]) == tr
    {
      var tuple := TrToTuple(table.flags, table.one, tr);
      var id := table.Encode(tuple);
      r := tr.(ilabel := id);
      if table.flags.encodeLabels {
        r := r.(olabel := id);
      }
      if table.flags.encodeWeights {
        r := r.(weight := table.one);
      }
      TrRoundTrip(table.flags, table.one, tr, id);
    }

    /**
     * `final_tr_map`: only when weights are encoded is the final
     * pseudo-transition encoded like a transition; otherwise it is left as it
     * is and the table does not change.
     */
    method FinalTrMap(ft: FinalTr<W>) returns (r: FinalTr<W>)
      requires table.Valid()
      modifies table
      ensures table.Valid() && old(table.idToTuple) <= table.idToTuple
      ensures !table.flags.encodeWeights ==> r == ft && table.idToTuple == old(table.idToTuple)
      ensures table.flags.encodeWeights ==>
                && 1 <= r.ilabel <= |table.idToTuple|
                && r == EncodedFinalTr(table.flags, table.one, ft, r.ilabel)
                && table.idToTuple[r.ilabel - 1] == FinalTrToTuple(table.flags, table.one, ft)
    {
      r := ft;
      if table.flags.encodeWeights {
        var tuple := FinalTrToTuple(table.flags, table.one, ft);
        var id := table.Encode(tuple);
        r := r.(ilabel := id);
        if table.flags.encodeLabels {
          r := r.(olabel := id);
        }
        r := r.(weight := table.one);
      }
    }

    /** `final_action`: a superfinal state is required exactly when weights are encoded. */
    function FinalAction(): (a: MapFinalAction)
      ensures a == MapRequireSuperfinal <==> table.flags.encodeWeights
      ensures a != MapAllowSuperfinal
    {
      if table.flags.encodeWeights then MapRequireSuperfinal else MapNoSuperfinal
    }

    /**
     * The transitions loop of `tr_map` over one state with this mapper: every
     * transition is encoded, and every result decodes back to the original
     * with the table as it stands at the end.
     */
    method EncodeTrs(trs: seq<Tr<W>>) returns (out: seq<Tr<W>>)
      requires table.Valid()
      modifies table
      ensures table.Valid() && old(table.idToTuple) <= table.idToTuple
      ensures |out| == |trs|
      ensures forall k :: 0 <= k < |out| ==>
                && 1 <= out[k].ilabel <= |table.idToTuple|
                && table.idToTuple[out[k].ilabel - 1] == TrToTuple(table.flags, table.one, trs[k])
                && DecodedTr(table.flags, out[k], table.idToTuple[out[k].ilabel - 1]) == trs[k]
    {
      out := [];
      var idx := 0;
      while idx < |trs|
        invariant 0 <= idx <= |trs| && |out| == idx
        invariant table.Valid() && old(table.idToTuple) <= table.idToTuple
        invariant forall k :: 0 <= k < idx ==>
                    && 1 <= out[k].ilabel <= |table.idToTuple|
                    && table.idToTuple[out[k].ilabel - 1] == TrToTuple(table.flags, table.one, trs[k])
                    && DecodedTr(table.flags, out[k], table.idToTuple[out[k].ilabel - 1]) == trs[k]
      {
        ghost var before := table.idToTuple;
        var tr := TrMap(trs[idx]);
        assert forall k :: 0 <= k < idx ==> table.idToTuple[out[k].ilabel - 1] == before[out[k].ilabel - 1];
        out := out + [tr];
        idx := idx + 1;
      }
    }
  }

  /** `DecodeMapper`: the `TrMapper` of `decode`, reading the table `encode` filled. */
  class DecodeMapper<W(==)> {
    const table: EncodeTableMut<W>

    constructor (table: EncodeTableMut<W>)
      ensures this.table == table
    {
      this.table := table;
    }

    /**
     * `tr_map`: the input label is looked up as a code (a code the table does
     * not hold makes the source's `unwrap` panic) and the parts the code
     * stands for are put back.
     */
    method TrMap(tr: Tr<W>) returns (r: Tr<W>)
      requires 1 <= tr.ilabel && table.Decode(tr.ilabel).Some?
      ensures r == DecodedTr(table.flags, tr, table.Decode(tr.ilabel).value)
      ensures r.nextstate == tr.nextstate
      ensures !table.flags.encodeLabels ==> r.olabel == tr.olabel
      ensures !table.flags.encodeWeights ==> r.weight == tr.weight
    {
      var tuple := table.Decode(tr.ilabel).value;
      r := tr.(ilabel := tuple.ilabel);
      if table.flags.encodeLabels {
        r := r.(olabel := tuple.olabel);
      }
      if table.flags.encodeWeights {
        r := r.(weight := tuple.weight);
      }
    }

    /** `final_tr_map`: final weights are left alone. */
    function FinalTrMap(ft: FinalTr<W>): (r: FinalTr<W>)
      ensures r == ft
    {
      ft
    }

    /** `final_action`: never a superfinal state. */
    function FinalAction(): (a: MapFinalAction)
      ensures a == MapNoSuperfinal
    {
      MapNoSuperfinal
    }
  }
}
