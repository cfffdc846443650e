/**
 * `SymbolTable`: a two-way mapping between labels and symbols (strings),
 * kept as two hash maps and a count of symbols. Labels are handed out in
 * order 0, 1, 2, ..., and label 0 is always the epsilon symbol `<eps>`.
 */
module SymbolTables {
  import opened Wrappers
  import opened FstTypes

  type Symbol = string

  const EPS_SYMBOL: Symbol := "<eps>"

  /**
   * The two maps are inverse to each other and the labels in use are
   * exactly 0 .. n - 1, one per symbol.
   */
  ghost predicate Tables(labelToSymbol: map<Label, Symbol>, symbolToLabel: map<Symbol, Label>, n: nat)
  {
    && |symbolToLabel.Keys| == n
    && (forall l: Label :: l in labelToSymbol <==> l < n)
    && (forall l :: l in labelToSymbol ==>
          labelToSymbol[l] in symbolToLabel && symbolToLabel[labelToSymbol[l]] == l)
    && (forall s :: s in symbolToLabel ==>
          symbolToLabel[s] in labelToSymbol && labelToSymbol[symbolToLabel[s]] == s)
  }

  /** Giving a new symbol the next label keeps the maps inverse and the labels contiguous. */
  lemma AddedTables(labelToSymbol: map<Label, Symbol>, symbolToLabel: map<Symbol, Label>, n: nat, sym: Symbol)
    requires Tables(labelToSymbol, symbolToLabel, n) && sym !in symbolToLabel
    ensures n !in labelToSymbol
    ensures Tables(labelToSymbol[n := sym], symbolToLabel[sym := n], n + 1)
  {
    assert symbolToLabel[sym := n].Keys == symbolToLabel.Keys + {sym};
  }

  class SymbolTable {
    var labelToSymbol: map<Label, Symbol>
    var symbolToLabel: map<Symbol, Label>
    var numSymbols: nat

    /**
     * The two maps are inverse to each other and the labels in use are
     * exactly 0 .. numSymbols - 1, one per symbol.
     */
    ghost predicate Valid()
      reads this
    {
      Tables(labelToSymbol, symbolToLabel, numSymbols)
    }

    /** `SymbolTable::new`: a table holding only `<eps>` under label 0. */
    constructor ()
      ensures Valid()
      ensures numSymbols == 1
      ensures labelToSymbol == map[EPS_LABEL := EPS_SYMBOL] && symbolToLabel == map[EPS_SYMBOL := EPS_LABEL]
    {
      labelToSymbol := map[];
      symbolToLabel := map[];
      numSymbols := 0;
      new;
      assert Valid();
      var eps := AddSymbol(EPS_SYMBOL);
    }

    /** `len`: the number of symbols; on a valid table the labels in use are exactly those below it. */
    function Len(): (n: nat)
      reads this
      ensures Valid() ==> n == |symbolToLabel.Keys| && forall l: Label :: l in labelToSymbol <==> l < n
    {
      numSymbols
    }

    /** `is_empty`: on a valid table, true exactly when not even label 0 is in use. */
    function IsEmpty(): (b: bool)
      reads this
      ensures b <==> Len() == 0
      ensures Valid() ==> (b <==> EPS_LABEL !in labelToSymbol)
    {
      numSymbols == 0
    }

    /**
     * `get_label`: the label of a symbol present, `None` otherwise; on a
     * valid table it is the label whose symbol is `sym`.
     */
    function GetLabel(sym: Symbol): (r: Option<Label>)
      reads this
      ensures r.Some? <==> sym in symbolToLabel
      ensures Valid() ==> forall l: Label :: r == Some(l) <==> GetSymbol(l) == Some(sym)
    {
      if sym in symbolToLabel then Some(symbolToLabel[sym]) else None
    }

    /**
     * `get_symbol`: the symbol of a label in use, `None` otherwise; on a
     * valid table the labels in use are those below `len()`, and the symbol
     * found has `l` as its label.
     */
    function GetSymbol(l: Label): (r: Option<Symbol>)
      reads this
      ensures r.Some? <==> l in labelToSymbol
      ensures Valid() ==> (r.Some? <==> l < numSymbols)
      ensures Valid() && r.Some? ==> r.value in symbolToLabel && symbolToLabel[r.value] == l
    {
      if l in labelToSymbol then Some(labelToSymbol[l]) else None
    }

    /** `contains_symbol`: on a valid table, true exactly when some label in use names `sym`. */
    function ContainsSymbol(sym: Symbol): (b: bool)
      reads this
      ensures b <==> sym in symbolToLabel
      ensures Valid() ==> (b <==> exists l: Label :: l < numSymbols && GetSymbol(l) == Some(sym))
    {
      GetLabel(sym).Some?
    }

    /** `contains_label`: on a valid table, true exactly for the labels below `len()`. */
    function ContainsLabel(l: Label): (b: bool)
      reads this
      ensures b <==> l in labelToSymbol
      ensures Valid() ==> (b <==> l < Len())
    {
      GetSymbol(l).Some?
    }

    /**
     * A symbol already present keeps its label and the table is unchanged;
     * a new symbol gets the next label, `numSymbols`, which grows by one.
     * Either way the symbol and the returned label now name each other.
     */
    method AddSymbol(sym: Symbol) returns (l: Label)
      modifies this
      ensures sym in old(symbolToLabel) ==>
                l == old(symbolToLabel[sym]) &&
                labelToSymbol == old(labelToSymbol) && symbolToLabel == old(symbolToLabel) &&
                numSymbols == old(numSymbols)
      ensures sym !in old(symbolToLabel) ==>
                l == old(numSymbols) && numSymbols == old(numSymbols) + 1 &&
                symbolToLabel == old(symbolToLabel)[sym := l] &&
                labelToSymbol == (if l in old(labelToSymbol) then old(labelToSymbol)
                                  else old(labelToSymbol)[l := sym])
      ensures old(Valid()) ==> Valid() && GetLabel(sym) == Some(l) && GetSymbol(l) == Some(sym)
      ensures symbolToLabel.Keys == old(symbolToLabel.Keys) + {sym}
      ensures forall k :: k in old(labelToSymbol) ==> k in labelToSymbol && labelToSymbol[k] == old(labelToSymbol[k])
    {
      l := numSymbols;
      if sym in symbolToLabel {
        l := symbolToLabel[sym];
      } else {
        if Valid() {
          AddedTables(labelToSymbol, symbolToLabel, numSymbols, sym);
        }
        symbolToLabel := symbolToLabel[sym := l];
        if l !in labelToSymbol {
          labelToSymbol := labelToSymbol[l := sym];
        }
        numSymbols := numSymbols + 1;
      }
    }

    /**
     * Adds every symbol of `other`, in the unspecified order of its hash map:
     * the existing labels stay, and exactly the missing symbols are added.
     */
    method AddTable(other: SymbolTable)
      requires other != this
      requires Valid()
      modifies this
      ensures Valid()
      ensures symbolToLabel.Keys == old(symbolToLabel.Keys) + other.symbolToLabel.Keys
      ensures forall l :: l in old(labelToSymbol) ==> l in labelToSymbol && labelToSymbol[l] == old(labelToSymbol[l])
      ensures numSymbols == |symbolToLabel.Keys|
    {
      var rest := other.symbolToLabel.Keys;
      while rest != {}
        invariant Valid() && rest <= other.symbolToLabel.Keys
        invariant symbolToLabel.Keys + rest == old(symbolToLabel.Keys) + other.symbolToLabel.Keys
        invariant forall l :: l in old(labelToSymbol) ==> l in labelToSymbol && labelToSymbol[l] == old(labelToSymbol[l])
        decreases rest
      {
        var sym :| sym in rest;
        ghost var keys := symbolToLabel.Keys;
        var added := AddSymbol(sym);
        MoveOne(keys, rest, sym);
        rest := rest - {sym};
      }
    }

    /** Moving `x` from the symbols still to add to those added leaves their union alone. */
    static lemma MoveOne<T>(done: set<T>, rest: set<T>, x: T)
      requires x in rest
      ensures (done + {x}) + (rest - {x}) == done + rest
    {
    }

    /** `get_label` and `get_symbol` are inverse to each other on a valid table. */
    lemma LookupInverse(sym: Symbol, l: Label)
      requires Valid()
      ensures GetLabel(sym) == Some(l) <==> GetSymbol(l) == Some(sym)
    {
    }

    /** The labels in use are exactly those below `len()`. */
    lemma ContainsLabelBelowLen(l: Label)
      requires Valid()
      ensures ContainsLabel(l) <==> l < Len()
    {
    }
  }
}
