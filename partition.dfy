/**
 * `Partition`: the partition of the states refined by Hopcroft-style
 * minimization. Each class keeps two doubly linked lists threaded through the
 * element table by `next_element`/`prev_element` (`-1` ends a list): the
 * "no" list and the "yes" list of elements marked in the current round. An
 * element is marked when its `yes` field equals `yes_counter`; bumping the
 * counter unmarks every element at once.
 *
 * The lists are abstracted by ghost sequences of element ids, one no-list and
 * one yes-list per class, and a ghost `loc` telling where each element sits.
 * The invariant ties the pointer fields, the heads, the sizes, the class ids
 * and the marks to those sequences.
 */
module Partitions {
  datatype Element = Element(classId: nat, yes: nat, nextElement: int, prevElement: int)
  datatype Class = Class(size: nat, yesSize: nat, noHead: int, yesHead: int)

  /** `Element::new` and `Class::new`. */
  const NewElement := Element(0, 0, 0, 0)
  const NewClass := Class(0, 0, -1, -1)

  /** Where an element sits: not added yet, or in the no- or yes-list of class `c`. */
  datatype Place = Unplaced | InNo(c: nat) | InYes(c: nat)

  function Head(l: seq<nat>): int
  {
    if l == [] then -1 else l[0]
  }

  function NextIn(l: seq<nat>, i: nat): int
    requires i < |l|
  {
    if i + 1 < |l| then l[i + 1] else -1
  }

  function PrevIn(l: seq<nat>, i: nat): int
    requires i < |l|
  {
    if i > 0 then l[i - 1] else -1
  }

  /** `l` is threaded through `es` in order, without repeats. */
  ghost predicate Linked(es: seq<Element>, l: seq<nat>)
  {
    && (forall i, j :: 0 <= i < j < |l| ==> l[i] != l[j])
    && (forall i :: 0 <= i < |l| ==> l[i] < |es|)
    && (forall i {:trigger es[l[i]]} :: 0 <= i < |l| ==>
          es[l[i]].nextElement == NextIn(l, i) && es[l[i]].prevElement == PrevIn(l, i))
  }

  /** Class `c` (record `k`) with no-list `no` and yes-list `yes`. */
  ghost predicate ClassOk(es: seq<Element>, k: Class, no: seq<nat>, yes: seq<nat>, loc: seq<Place>, c: nat)
  {
    && Linked(es, no) && Linked(es, yes)
    && k.noHead == Head(no) && k.yesHead == Head(yes)
    && k.size == |no| + |yes| && k.yesSize == |yes|
    && (forall i :: 0 <= i < |no| ==> no[i] < |loc| && loc[no[i]] == InNo(c))
    && (forall i :: 0 <= i < |yes| ==> yes[i] < |loc| && loc[yes[i]] == InYes(c))
  }

  /**
   * Element `e` (record `el`) at place `p`: its class id is the class whose
   * list holds it; a yes-list element carries the current mark; a no-list
   * element carries an older one (`strict`), or at most the current one while
   * a round is being finalized.
   */
  ghost predicate PlacedOk(el: Element, p: Place, noL: seq<seq<nat>>, yesL: seq<seq<nat>>, e: nat, counter: nat, strict: bool)
  {
    match p
    case Unplaced => true
    case InNo(c) => c < |noL| && e in noL[c] && el.classId == c && (if strict then el.yes < counter else el.yes <= counter)
    case InYes(c) => c < |yesL| && e in yesL[c] && el.classId == c && el.yes == counter
  }

  ghost predicate Inv(es: seq<Element>, cs: seq<Class>, noL: seq<seq<nat>>, yesL: seq<seq<nat>>, loc: seq<Place>, counter: nat, strict: bool)
  {
    && |noL| == |cs| && |yesL| == |cs| && |loc| == |es| && counter >= 1
    && (forall c {:trigger ClassOk(es, cs[c], noL[c], yesL[c], loc, c)} :: 0 <= c < |cs| ==> ClassOk(es, cs[c], noL[c], yesL[c], loc, c))
    && (forall e {:trigger PlacedOk(es[e], loc[e], noL, yesL, e, counter, strict)} :: 0 <= e < |es| ==> PlacedOk(es[e], loc[e], noL, yesL, e, counter, strict))
  }

  /** `visited_classes` lists, once each, exactly the classes with a non-empty yes-list. */
  ghost predicate VisitedOk(v: seq<nat>, yesL: seq<seq<nat>>)
  {
    && (forall i, j :: 0 <= i < j < |v| ==> v[i] != v[j])
    && (forall i :: 0 <= i < |v| ==> v[i] < |yesL|)
    && (forall c :: 0 <= c < |yesL| ==> (yesL[c] != [] <==> c in v))
  }

  /** `l` without `x`. */
  function Remove(l: seq<nat>, x: nat): seq<nat>
  {
    if l == [] then [] else (if l[0] == x then [] else [l[0]]) + Remove(l[1..], x)
  }

  // ---------------------------------------------------------------------------
  // Lists

  lemma LinkedFrame(es: seq<Element>, es2: seq<Element>, l: seq<nat>)
    requires Linked(es, l) && |es2| == |es|
    requires forall i :: 0 <= i < |l| ==> es2[l[i]].nextElement == es[l[i]].nextElement && es2[l[i]].prevElement == es[l[i]].prevElement
    ensures Linked(es2, l)
  {
  }

  /** Pushing `e` at the head of `l`. */
  lemma PushLinked(es: seq<Element>, es2: seq<Element>, l: seq<nat>, e: nat)
    requires Linked(es, l) && e < |es| && |es2| == |es|
    requires forall i :: 0 <= i < |l| ==> l[i] != e
    requires es2[e].nextElement == Head(l) && es2[e].prevElement == -1
    requires l != [] ==> es2[l[0]].nextElement == es[l[0]].nextElement && es2[l[0]].prevElement == e
    requires forall i :: 1 <= i < |l| ==> es2[l[i]].nextElement == es[l[i]].nextElement && es2[l[i]].prevElement == es[l[i]].prevElement
    ensures Linked(es2, [e] + l)
  {
    var m := [e] + l;
    forall i | 0 <= i < |m|
      ensures m[i] < |es2| && es2[m[i]].nextElement == NextIn(m, i) && es2[m[i]].prevElement == PrevIn(m, i)
    {
      if i > 0 {
        assert m[i] == l[i - 1];
      }
    }
  }

  /** `l` with position `k` cut out. */
  function Cut(l: seq<nat>, k: nat): (r: seq<nat>)
    requires k < |l|
    ensures |r| == |l| - 1
    ensures forall i :: 0 <= i < |r| ==> r[i] == if i < k then l[i] else l[i + 1]
  {
    l[..k] + l[k + 1..]
  }

  lemma CutDistinct(l: seq<nat>, k: nat)
    requires k < |l| && forall i, j :: 0 <= i < j < |l| ==> l[i] != l[j]
    ensures forall i, j :: 0 <= i < j < |l| - 1 ==> Cut(l, k)[i] != Cut(l, k)[j]
  {
    var m := Cut(l, k);
    forall i, j | 0 <= i < j < |m| ensures m[i] != m[j] {
      var i' := if i < k then i else i + 1;
      var j' := if j < k then j else j + 1;
      assert m[i] == l[i'] && m[j] == l[j'];
    }
  }

  /** Unlinking the element at position `k` of `l`. */
  lemma UnlinkLinked(es: seq<Element>, es2: seq<Element>, l: seq<nat>, k: nat)
    requires Linked(es, l) && k < |l| && |es2| == |es|
    requires k > 0 ==> es2[l[k - 1]].nextElement == NextIn(l, k) && es2[l[k - 1]].prevElement == es[l[k - 1]].prevElement
    requires k + 1 < |l| ==> es2[l[k + 1]].prevElement == PrevIn(l, k) && es2[l[k + 1]].nextElement == es[l[k + 1]].nextElement
    requires forall i :: 0 <= i < |l| && i + 1 != k && i != k && i != k + 1 ==>
               es2[l[i]].nextElement == es[l[i]].nextElement && es2[l[i]].prevElement == es[l[i]].prevElement
    ensures Linked(es2, Cut(l, k))
    ensures Head(Cut(l, k)) == if k == 0 then NextIn(l, 0) else Head(l)
  {
    var m := Cut(l, k);
    CutDistinct(l, k);
    forall i | 0 <= i < |m|
      ensures m[i] < |es2| && es2[m[i]].nextElement == NextIn(m, i) && es2[m[i]].prevElement == PrevIn(m, i)
    {
      if i + 1 < k {
        assert m[i + 1] == l[i + 1];
      } else if i + 1 == k {
        assert m[i] == l[k - 1];
      } else if i == k {
        assert m[i] == l[k + 1];
      } else {
        assert m[i] == l[i + 1];
      }
    }
  }

  lemma InRemoved(l: seq<nat>, k: nat, x: nat)
    requires k < |l| && x in l && x != l[k]
    ensures x in Cut(l, k)
  {
    var i :| 0 <= i < |l| && l[i] == x;
    if i < k {
      assert Cut(l, k)[i] == x;
    } else {
      assert Cut(l, k)[i - 1] == x;
    }
  }

  lemma {:induction false} RemovedIsRemove(l: seq<nat>, k: nat)
    requires k < |l| && forall i, j :: 0 <= i < j < |l| ==> l[i] != l[j]
    ensures Remove(l, l[k]) == Cut(l, k)
    decreases |l|
  {
    var t := l[1..];
    TailDistinct(l);
    if k == 0 {
      RemoveAbsent(t, l[0]);
      assert Cut(l, 0) == t;
    } else {
      RemovedIsRemove(t, k - 1);
      assert Cut(l, k) == [l[0]] + Cut(t, k - 1);
    }
  }

  lemma TailDistinct(l: seq<nat>)
    requires l != [] && forall i, j :: 0 <= i < j < |l| ==> l[i] != l[j]
    ensures l[0] !in l[1..]
    ensures forall i, j :: 0 <= i < j < |l| - 1 ==> l[1..][i] != l[1..][j]
  {
    forall i | 0 <= i < |l| - 1 ensures l[1..][i] != l[0] { assert l[1..][i] == l[i + 1]; }
  }

  lemma {:induction false} RemoveAbsent(l: seq<nat>, x: nat)
    requires x !in l
    ensures Remove(l, x) == l
    decreases |l|
  {
    if l != [] {
      RemoveAbsent(l[1..], x);
      assert l == [l[0]] + l[1..];
    }
  }

  // ---------------------------------------------------------------------------
  // The invariant under each step

  /** A class none of whose elements changed record or place is still consistent. */
  lemma ClassFrame(es: seq<Element>, es2: seq<Element>, k: Class, no: seq<nat>, yes: seq<nat>, loc: seq<Place>, loc2: seq<Place>, c: nat)
    requires ClassOk(es, k, no, yes, loc, c) && |es2| == |es| && |loc2| == |loc| && |loc| == |es|
    requires forall x :: 0 <= x < |es| && (es2[x] != es[x] || loc2[x] != loc[x]) ==> loc[x] != InNo(c) && loc[x] != InYes(c)
    ensures ClassOk(es2, k, no, yes, loc2, c)
  {
    LinkedFrame(es, es2, no);
    LinkedFrame(es, es2, yes);
  }

  /** Every class other than `c` is untouched when only elements of `c` (or unplaced ones) change. */
  lemma OtherClassesFrame(es: seq<Element>, es2: seq<Element>, cs: seq<Class>, noL: seq<seq<nat>>, yesL: seq<seq<nat>>,
                          loc: seq<Place>, loc2: seq<Place>, c: nat)
    requires |noL| == |cs| && |yesL| == |cs| && |es2| == |es| && |loc2| == |loc| && |loc| == |es|
    requires forall c' :: 0 <= c' < |cs| ==> ClassOk(es, cs[c'], noL[c'], yesL[c'], loc, c')
    requires forall x :: 0 <= x < |es| && (es2[x] != es[x] || loc2[x] != loc[x]) ==> loc[x] == Unplaced || loc[x] == InNo(c) || loc[x] == InYes(c)
    ensures forall c' :: 0 <= c' < |cs| && c' != c ==> ClassOk(es2, cs[c'], noL[c'], yesL[c'], loc2, c')
  {
    forall c' | 0 <= c' < |cs| && c' != c ensures ClassOk(es2, cs[c'], noL[c'], yesL[c'], loc2, c') {
      ClassFrame(es, es2, cs[c'], noL[c'], yesL[c'], loc, loc2, c');
    }
  }

  /** Unlinking `e` (position `k` of the no-list of `c`) leaves `e` unplaced and its class one smaller. */
  lemma UnlinkInv(es: seq<Element>, cs: seq<Class>, noL: seq<seq<nat>>, yesL: seq<seq<nat>>, loc: seq<Place>,
                  counter: nat, strict: bool, e: nat, c: nat, k: nat, es2: seq<Element>, cls: Class)
    requires Inv(es, cs, noL, yesL, loc, counter, strict)
    requires c < |cs| && e < |loc| && loc[e] == InNo(c) && k < |noL[c]| && noL[c][k] == e
    requires ClassOk(es, cs[c], noL[c], yesL[c], loc, c) && |es2| == |es|
    requires k > 0 ==> es2[noL[c][k - 1]] == es[noL[c][k - 1]].(nextElement := NextIn(noL[c], k))
    requires k + 1 < |noL[c]| ==> es2[noL[c][k + 1]] == es[noL[c][k + 1]].(prevElement := PrevIn(noL[c], k))
    requires forall x :: 0 <= x < |es| && x != PrevIn(noL[c], k) && x != NextIn(noL[c], k) ==> es2[x] == es[x]
    requires cls == cs[c].(size := cs[c].size - 1, noHead := if k == 0 then NextIn(noL[c], 0) else cs[c].noHead)
    ensures Inv(es2, cs[c := cls], noL[c := Cut(noL[c], k)], yesL, loc[e := Unplaced], counter, strict)
  {
    var l := noL[c];
    var l2 := Cut(l, k);
    var cs2 := cs[c := cls];
    var noL2 := noL[c := l2];
    var loc2 := loc[e := Unplaced];
    OtherClassesFrame(es, es2, cs, noL, yesL, loc, loc2, c);
    UnlinkClassOk(es, cs[c], l, yesL[c], loc, c, e, k, es2, cls);
    forall c' | 0 <= c' < |cs2| ensures ClassOk(es2, cs2[c'], noL2[c'], yesL[c'], loc2, c') {
      if c' != c { assert cs2[c'] == cs[c'] && noL2[c'] == noL[c']; }
    }
    assert forall x :: 0 <= x < |es| ==> es2[x].classId == es[x].classId && es2[x].yes == es[x].yes by {
      forall x | 0 <= x < |es| ensures es2[x].classId == es[x].classId && es2[x].yes == es[x].yes {
        if k > 0 && x == l[k - 1] {
        } else if k + 1 < |l| && x == l[k + 1] {
        } else {
          assert x != PrevIn(l, k) && x != NextIn(l, k);
        }
      }
    }
    UnlinkPlaced(es, noL, yesL, loc, counter, strict, e, c, k, es2);
  }

  /** Where `e`, in a no-list, sits: its class, its position and its neighbours. */
  lemma UnlinkPrepare(es: seq<Element>, cs: seq<Class>, noL: seq<seq<nat>>, yesL: seq<seq<nat>>, loc: seq<Place>,
                      counter: nat, strict: bool, e: nat) returns (k: nat)
    requires Inv(es, cs, noL, yesL, loc, counter, strict) && e < |es| && loc[e].InNo?
    ensures es[e].classId < |cs| && loc[e] == InNo(es[e].classId)
    ensures ClassOk(es, cs[es[e].classId], noL[es[e].classId], yesL[es[e].classId], loc, es[e].classId)
    ensures k < |noL[es[e].classId]| && noL[es[e].classId][k] == e && cs[es[e].classId].size >= 1
    ensures es[e].prevElement == PrevIn(noL[es[e].classId], k) && es[e].nextElement == NextIn(noL[es[e].classId], k)
    ensures es[e].prevElement < |es| && es[e].nextElement < |es|
    ensures es[e].prevElement < 0 <==> k == 0
    ensures es[e].prevElement != e && es[e].nextElement != e
  {
    assert PlacedOk(es[e], loc[e], noL, yesL, e, counter, strict);
    var c := es[e].classId;
    assert ClassOk(es, cs[c], noL[c], yesL[c], loc, c);
    var l := noL[c];
    k :| 0 <= k < |l| && l[k] == e;
    if k > 0 { assert l[k - 1] != l[k]; }
    if k + 1 < |l| { assert l[k + 1] != l[k]; }
  }

  /** `RemoveAll(noL, e)[c]` is `noL[c]` without `e`. */
  ghost function RemoveAll(noL: seq<seq<nat>>, e: nat): (r: seq<seq<nat>>)
    ensures |r| == |noL| && forall c :: 0 <= c < |noL| ==> r[c] == Remove(noL[c], e)
  {
    seq(|noL|, c requires 0 <= c < |noL| => Remove(noL[c], e))
  }

  /** `UnlinkInv` with the new lists written as `e` removed from every no-list. */
  lemma UnlinkRemoves(es: seq<Element>, cs: seq<Class>, noL: seq<seq<nat>>, yesL: seq<seq<nat>>, loc: seq<Place>,
                      counter: nat, strict: bool, e: nat, c: nat, k: nat, es2: seq<Element>, cls: Class)
    requires Inv(es, cs, noL, yesL, loc, counter, strict)
    requires c < |cs| && e < |loc| && loc[e] == InNo(c) && k < |noL[c]| && noL[c][k] == e
    requires ClassOk(es, cs[c], noL[c], yesL[c], loc, c) && |es2| == |es|
    requires k > 0 ==> es2[noL[c][k - 1]] == es[noL[c][k - 1]].(nextElement := NextIn(noL[c], k))
    requires k + 1 < |noL[c]| ==> es2[noL[c][k + 1]] == es[noL[c][k + 1]].(prevElement := PrevIn(noL[c], k))
    requires forall x :: 0 <= x < |es| && x != PrevIn(noL[c], k) && x != NextIn(noL[c], k) ==> es2[x] == es[x]
    requires cls == cs[c].(size := cs[c].size - 1, noHead := if k == 0 then NextIn(noL[c], 0) else cs[c].noHead)
    ensures Inv(es2, cs[c := cls], RemoveAll(noL, e), yesL, loc[e := Unplaced], counter, strict)
  {
    UnlinkInv(es, cs, noL, yesL, loc, counter, strict, e, c, k, es2, cls);
    RemovedIsRemove(noL[c], k);
    forall c' | 0 <= c' < |noL| && c' != c ensures Remove(noL[c'], e) == noL[c'] {
      assert ClassOk(es, cs[c'], noL[c'], yesL[c'], loc, c');
      RemoveAbsent(noL[c'], e);
    }
    assert RemoveAll(noL, e) == noL[c := Cut(noL[c], k)];
  }

  lemma UnlinkClassOk(es: seq<Element>, kc: Class, l: seq<nat>, yes: seq<nat>, loc: seq<Place>, c: nat, e: nat, k: nat,
                      es2: seq<Element>, cls: Class)
    requires ClassOk(es, kc, l, yes, loc, c) && k < |l| && l[k] == e && |es2| == |es| && |loc| == |es|
    requires k > 0 ==> es2[l[k - 1]] == es[l[k - 1]].(nextElement := NextIn(l, k))
    requires k + 1 < |l| ==> es2[l[k + 1]] == es[l[k + 1]].(prevElement := PrevIn(l, k))
    requires forall x :: 0 <= x < |es| && x != PrevIn(l, k) && x != NextIn(l, k) ==> es2[x] == es[x]
    requires cls == kc.(size := kc.size - 1, noHead := if k == 0 then NextIn(l, 0) else kc.noHead)
    ensures ClassOk(es2, cls, Cut(l, k), yes, loc[e := Unplaced], c)
  {
    UnlinkNeighbours(es, es2, l, k);
    UnlinkLinked(es, es2, l, k);
    UnlinkChanged(es, es2, l, loc, c, k);
    LinkedFrame(es, es2, yes);
    UnlinkLocs(l, loc, c, k);
  }

  /** Only the neighbours of position `k` change, and only in the pointer that skips `k`. */
  lemma UnlinkNeighbours(es: seq<Element>, es2: seq<Element>, l: seq<nat>, k: nat)
    requires Linked(es, l) && k < |l| && |es2| == |es|
    requires k > 0 ==> es2[l[k - 1]] == es[l[k - 1]].(nextElement := NextIn(l, k))
    requires k + 1 < |l| ==> es2[l[k + 1]] == es[l[k + 1]].(prevElement := PrevIn(l, k))
    requires forall x :: 0 <= x < |es| && x != PrevIn(l, k) && x != NextIn(l, k) ==> es2[x] == es[x]
    ensures forall i :: 0 <= i < |l| && i + 1 != k && i != k && i != k + 1 ==>
              es2[l[i]].nextElement == es[l[i]].nextElement && es2[l[i]].prevElement == es[l[i]].prevElement
  {
    forall i | 0 <= i < |l| && i + 1 != k && i != k && i != k + 1
      ensures es2[l[i]].nextElement == es[l[i]].nextElement && es2[l[i]].prevElement == es[l[i]].prevElement
    {
      assert l[i] != PrevIn(l, k) by { if k > 0 { assert l[i] != l[k - 1]; } }
      assert l[i] != NextIn(l, k) by { if k + 1 < |l| { assert l[i] != l[k + 1]; } }
    }
  }

  /** The elements whose record changes are in the no-list of `c`. */
  lemma UnlinkChanged(es: seq<Element>, es2: seq<Element>, l: seq<nat>, loc: seq<Place>, c: nat, k: nat)
    requires k < |l| && |es2| == |es| && |loc| == |es|
    requires forall i :: 0 <= i < |l| ==> l[i] < |loc| && loc[l[i]] == InNo(c)
    requires forall x :: 0 <= x < |es| && x != PrevIn(l, k) && x != NextIn(l, k) ==> es2[x] == es[x]
    ensures forall x :: 0 <= x < |es| && es2[x] != es[x] ==> loc[x] == InNo(c)
  {
    forall x | 0 <= x < |es| && es2[x] != es[x] ensures loc[x] == InNo(c) {
      if x == PrevIn(l, k) { assert x == l[k - 1]; } else { assert x == l[k + 1]; }
    }
  }

  lemma UnlinkLocs(l: seq<nat>, loc: seq<Place>, c: nat, k: nat)
    requires k < |l| && forall i, j :: 0 <= i < j < |l| ==> l[i] != l[j]
    requires forall i :: 0 <= i < |l| ==> l[i] < |loc| && loc[l[i]] == InNo(c)
    ensures forall i :: 0 <= i < |l| - 1 ==> Cut(l, k)[i] < |loc| && loc[l[k] := Unplaced][Cut(l, k)[i]] == InNo(c)
  {
    var l2 := Cut(l, k);
    forall i | 0 <= i < |l2| ensures l2[i] < |loc| && loc[l[k] := Unplaced][l2[i]] == InNo(c) {
      if i < k { assert l2[i] == l[i]; } else { assert l2[i] == l[i + 1]; }
    }
  }

  lemma UnlinkPlaced(es: seq<Element>, noL: seq<seq<nat>>, yesL: seq<seq<nat>>, loc: seq<Place>,
                     counter: nat, strict: bool, e: nat, c: nat, k: nat, es2: seq<Element>)
    requires |loc| == |es| && |es2| == |es| && c < |noL| && e < |es| && k < |noL[c]| && noL[c][k] == e
    requires forall x :: 0 <= x < |es| ==> PlacedOk(es[x], loc[x], noL, yesL, x, counter, strict)
    requires forall x :: 0 <= x < |es| ==> es2[x].classId == es[x].classId && es2[x].yes == es[x].yes
    ensures forall x :: 0 <= x < |es| ==> PlacedOk(es2[x], loc[e := Unplaced][x], noL[c := Cut(noL[c], k)], yesL, x, counter, strict)
  {
    forall x | 0 <= x < |es| ensures PlacedOk(es2[x], loc[e := Unplaced][x], noL[c := Cut(noL[c], k)], yesL, x, counter, strict) {
      if x != e && loc[x] == InNo(c) {
        InRemoved(noL[c], k, x);
      }
    }
  }

  /** Pushing unplaced `e` onto list `l`: the list stays threaded and every entry is placed at `p`. */
  lemma PushClassPart(es: seq<Element>, es2: seq<Element>, l: seq<nat>, loc: seq<Place>, e: nat, p: Place)
    requires Linked(es, l) && e < |es| && |es2| == |es| && |loc| == |es| && loc[e] == Unplaced && p != Unplaced
    requires forall i :: 0 <= i < |l| ==> l[i] < |loc| && loc[l[i]] == p
    requires es2[e].nextElement == Head(l) && es2[e].prevElement == -1
    requires l != [] ==> es2[l[0]] == es[l[0]].(prevElement := e)
    requires forall x :: 0 <= x < |es| && x != e && x != Head(l) ==> es2[x] == es[x]
    ensures Linked(es2, [e] + l)
    ensures forall i :: 0 <= i < |[e] + l| ==> ([e] + l)[i] < |loc| && loc[e := p][([e] + l)[i]] == p
  {
    assert forall i :: 0 <= i < |l| ==> l[i] != e;
    PushLinked(es, es2, l, e);
    forall i | 0 <= i < |[e] + l| ensures ([e] + l)[i] < |loc| && loc[e := p][([e] + l)[i]] == p {
      if i > 0 { assert ([e] + l)[i] == l[i - 1]; }
    }
  }

  /** `add`'s update: `e`, unplaced, goes to the head of the no-list of `c`. */
  lemma PushNoInv(es: seq<Element>, cs: seq<Class>, noL: seq<seq<nat>>, yesL: seq<seq<nat>>, loc: seq<Place>,
                  counter: nat, strict: bool, e: nat, c: nat, es2: seq<Element>)
    requires Inv(es, cs, noL, yesL, loc, counter, strict)
    requires c < |cs| && e < |es| && loc[e] == Unplaced && |es2| == |es|
    requires ClassOk(es, cs[c], noL[c], yesL[c], loc, c)
    requires es2[e] == es[e].(classId := c, yes := 0, nextElement := Head(noL[c]), prevElement := -1)
    requires noL[c] != [] ==> es2[noL[c][0]] == es[noL[c][0]].(prevElement := e)
    requires forall x :: 0 <= x < |es| && x != e && x != Head(noL[c]) ==> es2[x] == es[x]
    ensures Inv(es2, cs[c := cs[c].(size := cs[c].size + 1, noHead := e)], noL[c := [e] + noL[c]], yesL,
                loc[e := InNo(c)], counter, strict)
  {
    var l := noL[c];
    var loc2 := loc[e := InNo(c)];
    OtherClassesFrame(es, es2, cs, noL, yesL, loc, loc2, c);
    assert ClassOk(es, cs[c], l, yesL[c], loc, c);
    PushClassPart(es, es2, l, loc, e, InNo(c));
    OtherListFrame(es, es2, yesL[c], loc, InYes(c), e, InNo(c));
    forall x | 0 <= x < |es2| ensures PlacedOk(es2[x], loc2[x], noL[c := [e] + l], yesL, x, counter, strict) {
      assert PlacedOk(es[x], loc[x], noL, yesL, x, counter, strict);
      if x != e && loc[x] == InNo(c) {
        assert x in [e] + l;
      }
    }
  }

  /** `split_on`'s update: `e`, unplaced but still labelled `c`, goes to the head of the yes-list of `c`. */
  lemma PushYesInv(es: seq<Element>, cs: seq<Class>, noL: seq<seq<nat>>, yesL: seq<seq<nat>>, loc: seq<Place>,
                   counter: nat, strict: bool, e: nat, c: nat, es2: seq<Element>)
    requires Inv(es, cs, noL, yesL, loc, counter, strict)
    requires c < |cs| && e < |es| && loc[e] == Unplaced && es[e].classId == c && |es2| == |es|
    requires ClassOk(es, cs[c], noL[c], yesL[c], loc, c)
    requires es2[e] == es[e].(yes := counter, nextElement := Head(yesL[c]), prevElement := -1)
    requires yesL[c] != [] ==> es2[yesL[c][0]] == es[yesL[c][0]].(prevElement := e)
    requires forall x :: 0 <= x < |es| && x != e && x != Head(yesL[c]) ==> es2[x] == es[x]
    ensures Inv(es2, cs[c := cs[c].(size := cs[c].size + 1, yesSize := cs[c].yesSize + 1, yesHead := e)], noL,
                yesL[c := [e] + yesL[c]], loc[e := InYes(c)], counter, strict)
  {
    var l := yesL[c];
    var loc2 := loc[e := InYes(c)];
    OtherClassesFrame(es, es2, cs, noL, yesL, loc, loc2, c);
    assert ClassOk(es, cs[c], noL[c], l, loc, c);
    PushClassPart(es, es2, l, loc, e, InYes(c));
    OtherListFrame(es, es2, noL[c], loc, InNo(c), e, InYes(c));
    PushYesPlaced(es, noL, yesL, loc, counter, strict, e, c, es2);
    ClassOkIntro(es2, cs[c].(size := cs[c].size + 1, yesSize := cs[c].yesSize + 1, yesHead := e), noL[c], [e] + l, loc2, c);
  }

  lemma ClassOkIntro(es: seq<Element>, k: Class, no: seq<nat>, yes: seq<nat>, loc: seq<Place>, c: nat)
    requires Linked(es, no) && Linked(es, yes)
    requires k.noHead == Head(no) && k.yesHead == Head(yes)
    requires k.size == |no| + |yes| && k.yesSize == |yes|
    requires forall i :: 0 <= i < |no| ==> no[i] < |loc| && loc[no[i]] == InNo(c)
    requires forall i :: 0 <= i < |yes| ==> yes[i] < |loc| && loc[yes[i]] == InYes(c)
    ensures ClassOk(es, k, no, yes, loc, c)
  {
  }

  lemma PushYesPlaced(es: seq<Element>, noL: seq<seq<nat>>, yesL: seq<seq<nat>>, loc: seq<Place>,
                      counter: nat, strict: bool, e: nat, c: nat, es2: seq<Element>)
    requires |loc| == |es| && |es2| == |es| && c < |yesL| && e < |es|
    requires forall x :: 0 <= x < |es| ==> PlacedOk(es[x], loc[x], noL, yesL, x, counter, strict)
    requires es2[e].classId == c && es2[e].yes == counter
    requires forall x :: 0 <= x < |es| && x != e ==> es2[x].classId == es[x].classId && es2[x].yes == es[x].yes
    ensures forall x :: 0 <= x < |es| ==> PlacedOk(es2[x], loc[e := InYes(c)][x], noL, yesL[c := [e] + yesL[c]], x, counter, strict)
  {
    forall x | 0 <= x < |es| ensures PlacedOk(es2[x], loc[e := InYes(c)][x], noL, yesL[c := [e] + yesL[c]], x, counter, strict) {
      assert PlacedOk(es[x], loc[x], noL, yesL, x, counter, strict);
      if x != e && loc[x] == InYes(c) {
        assert x in [e] + yesL[c];
      }
    }
  }

  /** The other list of the class an element is pushed onto is not disturbed. */
  lemma OtherListFrame(es: seq<Element>, es2: seq<Element>, m: seq<nat>, loc: seq<Place>, q: Place, e: nat, p: Place)
    requires Linked(es, m) && |es2| == |es| && |loc| == |es| && e < |es| && loc[e] == Unplaced && q != Unplaced
    requires forall i :: 0 <= i < |m| ==> m[i] < |loc| && loc[m[i]] == q
    requires forall x :: 0 <= x < |es| && es2[x] != es[x] ==> loc[x] != q
    ensures Linked(es2, m)
    ensures forall i :: 0 <= i < |m| ==> loc[e := p][m[i]] == q
  {
    LinkedFrame(es, es2, m);
  }

  /** Appending `n` fresh classes keeps everything consistent. */
  lemma AddClassesInv(es: seq<Element>, cs: seq<Class>, noL: seq<seq<nat>>, yesL: seq<seq<nat>>, loc: seq<Place>,
                      counter: nat, strict: bool, v: seq<nat>, n: nat)
    requires Inv(es, cs, noL, yesL, loc, counter, strict)
    ensures Inv(es, cs + seq(n, _ => NewClass), noL + seq(n, _ => []), yesL + seq(n, _ => []), loc, counter, strict)
    ensures VisitedOk(v, yesL) ==> VisitedOk(v, yesL + seq(n, _ => []))
  {
    var cs2, noL2, yesL2 := cs + seq(n, _ => NewClass), noL + seq(n, _ => []), yesL + seq(n, _ => []);
    forall c | 0 <= c < |cs2| ensures ClassOk(es, cs2[c], noL2[c], yesL2[c], loc, c) {
      if c < |cs| {
        assert ClassOk(es, cs[c], noL[c], yesL[c], loc, c);
        assert cs2[c] == cs[c] && noL2[c] == noL[c] && yesL2[c] == yesL[c];
      }
    }
    forall x | 0 <= x < |es| ensures PlacedOk(es[x], loc[x], noL2, yesL2, x, counter, strict) {
      assert PlacedOk(es[x], loc[x], noL, yesL, x, counter, strict);
      if loc[x] != Unplaced {
        assert noL2[loc[x].c] == noL[loc[x].c] && yesL2[loc[x].c] == yesL[loc[x].c];
      }
    }
  }

  /** The strict invariant implies the one kept while a round is finalized. */
  lemma Loosen(es: seq<Element>, cs: seq<Class>, noL: seq<seq<nat>>, yesL: seq<seq<nat>>, loc: seq<Place>, counter: nat)
    requires Inv(es, cs, noL, yesL, loc, counter, true)
    ensures Inv(es, cs, noL, yesL, loc, counter, false)
  {
    forall x | 0 <= x < |es| ensures PlacedOk(es[x], loc[x], noL, yesL, x, counter, false) {
      assert PlacedOk(es[x], loc[x], noL, yesL, x, counter, true);
    }
  }

  /** With every yes-list empty, bumping the counter restores the strict invariant. */
  lemma Tighten(es: seq<Element>, cs: seq<Class>, noL: seq<seq<nat>>, yesL: seq<seq<nat>>, loc: seq<Place>, counter: nat)
    requires Inv(es, cs, noL, yesL, loc, counter, false)
    requires forall c :: 0 <= c < |yesL| ==> yesL[c] == []
    ensures Inv(es, cs, noL, yesL, loc, counter + 1, true)
  {
    forall x | 0 <= x < |es| ensures PlacedOk(es[x], loc[x], noL, yesL, x, counter + 1, true) {
      assert PlacedOk(es[x], loc[x], noL, yesL, x, counter, false);
    }
  }

  // ---------------------------------------------------------------------------
  // split_refine

  /** Two placements put the same elements together and leave the same ones out. */
  ghost predicate SameBlocks(a: seq<Place>, b: seq<Place>)
  {
    && |a| == |b|
    && (forall x :: 0 <= x < |a| ==> (a[x] == Unplaced <==> b[x] == Unplaced))
    && (forall x, y :: 0 <= x < |a| && 0 <= y < |a| ==> (a[x] == a[y] <==> b[x] == b[y]))
  }

  /** Every member of the yes-list of `c` moves to its no-list. */
  ghost function AllYesPlaces(loc: seq<Place>, c: nat): (r: seq<Place>)
    ensures |r| == |loc|
  {
    seq(|loc|, x requires 0 <= x < |loc| => if loc[x] == InYes(c) then InNo(c) else loc[x])
  }

  /**
   * Class `c` splits: one side moves to the no-list of the new class `r`,
   * the other side becomes (or stays) the no-list of `c`.
   */
  function SplitPlace(p: Place, c: nat, r: nat, movedYes: bool): Place
  {
    if p == InYes(c) then (if movedYes then InNo(r) else InNo(c))
    else if p == InNo(c) then (if movedYes then InNo(c) else InNo(r))
    else p
  }

  ghost function SplitPlaces(loc: seq<Place>, c: nat, r: nat, movedYes: bool): (p: seq<Place>)
    ensures |p| == |loc| && forall x :: 0 <= x < |loc| ==> p[x] == SplitPlace(loc[x], c, r, movedYes)
  {
    seq(|loc|, x requires 0 <= x < |loc| => SplitPlace(loc[x], c, r, movedYes))
  }

  /** The lists of class `c` hold exactly the elements placed there. */
  lemma ListMembers(es: seq<Element>, cs: seq<Class>, noL: seq<seq<nat>>, yesL: seq<seq<nat>>, loc: seq<Place>,
                    counter: nat, strict: bool, c: nat)
    requires Inv(es, cs, noL, yesL, loc, counter, strict) && c < |cs|
    ensures forall x :: 0 <= x < |es| ==> (x in noL[c] <==> loc[x] == InNo(c)) && (x in yesL[c] <==> loc[x] == InYes(c))
  {
    assert ClassOk(es, cs[c], noL[c], yesL[c], loc, c);
    forall x | 0 <= x < |es| ensures (x in noL[c] <==> loc[x] == InNo(c)) && (x in yesL[c] <==> loc[x] == InYes(c)) {
      assert PlacedOk(es[x], loc[x], noL, yesL, x, counter, strict);
    }
  }

  /** `split_refine` when the whole class said yes: the yes-list becomes the no-list. */
  lemma RefineAllYesInv(es: seq<Element>, cs: seq<Class>, noL: seq<seq<nat>>, yesL: seq<seq<nat>>, loc: seq<Place>,
                        counter: nat, c: nat)
    requires Inv(es, cs, noL, yesL, loc, counter, false) && c < |cs| && noL[c] == []
    ensures Inv(es, cs[c := cs[c].(noHead := cs[c].yesHead, yesHead := -1, yesSize := 0)], noL[c := yesL[c]], yesL[c := []],
                AllYesPlaces(loc, c), counter, false)
    ensures SameBlocks(loc, AllYesPlaces(loc, c))
  {
    var loc2 := AllYesPlaces(loc, c);
    ListMembers(es, cs, noL, yesL, loc, counter, false, c);
    assert forall x :: 0 <= x < |es| ==> loc[x] != InNo(c);
    OtherClassesFrame(es, es, cs, noL, yesL, loc, loc2, c);
    assert ClassOk(es, cs[c], noL[c], yesL[c], loc, c);
    ClassOkIntro(es, cs[c].(noHead := cs[c].yesHead, yesHead := -1, yesSize := 0), yesL[c], [], loc2, c);
    forall x | 0 <= x < |es| ensures PlacedOk(es[x], loc2[x], noL[c := yesL[c]], yesL[c := []], x, counter, false) {
      assert PlacedOk(es[x], loc[x], noL, yesL, x, counter, false);
    }
  }

  /** `split_refine` with a new class `r == |cs|`. */
  lemma RefineSplitInv(es: seq<Element>, cs: seq<Class>, noL: seq<seq<nat>>, yesL: seq<seq<nat>>, loc: seq<Place>,
                       counter: nat, c: nat, movedYes: bool, es2: seq<Element>)
    requires Inv(es, cs, noL, yesL, loc, counter, false) && c < |cs| && |es2| == |es|
    requires forall x :: 0 <= x < |es| ==>
               es2[x] == if loc[x] == (if movedYes then InYes(c) else InNo(c)) then es[x].(classId := |cs|) else es[x]
    ensures var m := if movedYes then yesL[c] else noL[c];
            var k := if movedYes then noL[c] else yesL[c];
            Inv(es2, (cs + [NewClass.(size := |m|, noHead := Head(m))])[c := cs[c].(size := |k|, yesSize := 0, noHead := Head(k), yesHead := -1)],
                (noL + [m])[c := k], (yesL + [[]])[c := []], SplitPlaces(loc, c, |cs|, movedYes), counter, false)
    ensures SameBlocks(loc, SplitPlaces(loc, c, |cs|, movedYes))
  {
    var r := |cs|;
    var m := if movedYes then yesL[c] else noL[c];
    var k := if movedYes then noL[c] else yesL[c];
    var pm := if movedYes then InYes(c) else InNo(c);
    var pk := if movedYes then InNo(c) else InYes(c);
    var loc2 := SplitPlaces(loc, c, r, movedYes);
    var cs2 := (cs + [NewClass.(size := |m|, noHead := Head(m))])[c := cs[c].(size := |k|, yesSize := 0, noHead := Head(k), yesHead := -1)];
    var noL2 := (noL + [m])[c := k];
    var yesL2 := (yesL + [[]])[c := []];
    ListMembers(es, cs, noL, yesL, loc, counter, false, c);
    SplitClasses(es, cs, noL, yesL, loc, counter, c, movedYes, es2);
    SplitPlaced(es, cs, noL, yesL, loc, counter, c, movedYes, es2);
    SplitBlocks(es, cs, noL, yesL, loc, counter, c, movedYes);
  }

  lemma SplitClasses(es: seq<Element>, cs: seq<Class>, noL: seq<seq<nat>>, yesL: seq<seq<nat>>, loc: seq<Place>,
                     counter: nat, c: nat, movedYes: bool, es2: seq<Element>)
    requires Inv(es, cs, noL, yesL, loc, counter, false) && c < |cs| && |es2| == |es|
    requires forall x :: 0 <= x < |es| ==>
               es2[x] == if loc[x] == (if movedYes then InYes(c) else InNo(c)) then es[x].(classId := |cs|) else es[x]
    ensures var m := if movedYes then yesL[c] else noL[c];
            var k := if movedYes then noL[c] else yesL[c];
            var cs2 := (cs + [NewClass.(size := |m|, noHead := Head(m))])[c := cs[c].(size := |k|, yesSize := 0, noHead := Head(k), yesHead := -1)];
            forall c' :: 0 <= c' < |cs2| ==>
              ClassOk(es2, cs2[c'], (noL + [m])[c := k][c'], (yesL + [[]])[c := []][c'], SplitPlaces(loc, c, |cs|, movedYes), c')
  {
    var r := |cs|;
    var m := if movedYes then yesL[c] else noL[c];
    var k := if movedYes then noL[c] else yesL[c];
    var pm := if movedYes then InYes(c) else InNo(c);
    var pk := if movedYes then InNo(c) else InYes(c);
    var loc2 := SplitPlaces(loc, c, r, movedYes);
    var cs2 := (cs + [NewClass.(size := |m|, noHead := Head(m))])[c := cs[c].(size := |k|, yesSize := 0, noHead := Head(k), yesHead := -1)];
    var noL2 := (noL + [m])[c := k];
    var yesL2 := (yesL + [[]])[c := []];
    assert ClassOk(es, cs[c], noL[c], yesL[c], loc, c);
    OtherClassesFrame(es, es2, cs, noL, yesL, loc, loc2, c);
    SplitListFrame(es, es2, m, loc, pm, c, r, movedYes);
    SplitListFrame(es, es2, k, loc, pk, c, r, movedYes);
    forall c' | 0 <= c' < |cs2| ensures ClassOk(es2, cs2[c'], noL2[c'], yesL2[c'], loc2, c') {
      if c' == c {
        ClassOkIntro(es2, cs2[c], k, [], loc2, c);
      } else if c' == r {
        ClassOkIntro(es2, cs2[r], m, [], loc2, r);
      } else {
        assert cs2[c'] == cs[c'] && noL2[c'] == noL[c'] && yesL2[c'] == yesL[c'];
      }
    }
  }

  /** One side of a splitting class: still threaded, and every member placed at the given place afterwards. */
  lemma SplitListFrame(es: seq<Element>, es2: seq<Element>, l: seq<nat>, loc: seq<Place>, p: Place, c: nat, r: nat, movedYes: bool)
    requires Linked(es, l) && |es2| == |es| && |loc| == |es| && (p == InNo(c) || p == InYes(c))
    requires forall i :: 0 <= i < |l| ==> l[i] < |loc| && loc[l[i]] == p
    requires forall x :: 0 <= x < |es| ==> es2[x].nextElement == es[x].nextElement && es2[x].prevElement == es[x].prevElement
    ensures Linked(es2, l)
    ensures forall i :: 0 <= i < |l| ==> SplitPlaces(loc, c, r, movedYes)[l[i]] == (if (p == InYes(c)) == movedYes then InNo(r) else InNo(c))
  {
    LinkedFrame(es, es2, l);
  }

  lemma SplitPlaced(es: seq<Element>, cs: seq<Class>, noL: seq<seq<nat>>, yesL: seq<seq<nat>>, loc: seq<Place>,
                    counter: nat, c: nat, movedYes: bool, es2: seq<Element>)
    requires Inv(es, cs, noL, yesL, loc, counter, false) && c < |cs| && |es2| == |es|
    requires forall x :: 0 <= x < |es| ==>
               es2[x] == if loc[x] == (if movedYes then InYes(c) else InNo(c)) then es[x].(classId := |cs|) else es[x]
    requires forall x :: 0 <= x < |es| ==> (x in noL[c] <==> loc[x] == InNo(c)) && (x in yesL[c] <==> loc[x] == InYes(c))
    ensures var m := if movedYes then yesL[c] else noL[c];
            var k := if movedYes then noL[c] else yesL[c];
            forall x :: 0 <= x < |es| ==>
              PlacedOk(es2[x], SplitPlaces(loc, c, |cs|, movedYes)[x], (noL + [m])[c := k], (yesL + [[]])[c := []], x, counter, false)
  {
    forall x | 0 <= x < |es|
      ensures PlacedOk(es2[x], SplitPlace(loc[x], c, |cs|, movedYes), (noL + [if movedYes then yesL[c] else noL[c]])[c := if movedYes then noL[c] else yesL[c]],
                       (yesL + [[]])[c := []], x, counter, false)
    {
      assert PlacedOk(es[x], loc[x], noL, yesL, x, counter, false);
      SplitPlacedOne(es[x], es2[x], loc[x], noL, yesL, x, counter, c, movedYes);
    }
  }

  lemma SplitPlacedOne(el: Element, el2: Element, p: Place, noL: seq<seq<nat>>, yesL: seq<seq<nat>>, x: nat, counter: nat, c: nat, movedYes: bool)
    requires PlacedOk(el, p, noL, yesL, x, counter, false) && |yesL| == |noL| && c < |noL|
    requires el2 == if p == (if movedYes then InYes(c) else InNo(c)) then el.(classId := |noL|) else el
    requires (x in noL[c] <==> p == InNo(c)) && (x in yesL[c] <==> p == InYes(c))
    ensures var m := if movedYes then yesL[c] else noL[c];
            var k := if movedYes then noL[c] else yesL[c];
            PlacedOk(el2, SplitPlace(p, c, |noL|, movedYes), (noL + [m])[c := k], (yesL + [[]])[c := []], x, counter, false)
  {
    var m := if movedYes then yesL[c] else noL[c];
    var k := if movedYes then noL[c] else yesL[c];
    var noL2 := (noL + [m])[c := k];
    var yesL2 := (yesL + [[]])[c := []];
    if p != InNo(c) && p != InYes(c) && p != Unplaced {
      assert noL2[p.c] == noL[p.c] && yesL2[p.c] == yesL[p.c];
    } else if p != Unplaced {
      assert noL2[|noL|] == m && noL2[c] == k;
    }
  }

  lemma SplitBlocks(es: seq<Element>, cs: seq<Class>, noL: seq<seq<nat>>, yesL: seq<seq<nat>>, loc: seq<Place>,
                    counter: nat, c: nat, movedYes: bool)
    requires Inv(es, cs, noL, yesL, loc, counter, false) && c < |cs|
    ensures SameBlocks(loc, SplitPlaces(loc, c, |cs|, movedYes))
  {
    forall x | 0 <= x < |loc| && loc[x] != Unplaced ensures loc[x].c < |cs| {
      assert PlacedOk(es[x], loc[x], noL, yesL, x, counter, false);
    }
    RenameBlocks(loc, c, |cs|, movedYes);
  }

  lemma RenameBlocks(loc: seq<Place>, c: nat, r: nat, movedYes: bool)
    requires c < r && forall x :: 0 <= x < |loc| && loc[x] != Unplaced ==> loc[x].c < r
    ensures SameBlocks(loc, SplitPlaces(loc, c, r, movedYes))
  {
  }

  lemma SameBlocksTrans(a: seq<Place>, b: seq<Place>, c: seq<Place>)
    requires SameBlocks(a, b) && SameBlocks(b, c)
    ensures SameBlocks(a, c)
  {
  }

  /** `split_on` records the class of the yes-list it pushes onto when that list was empty. */
  lemma VisitedPush(v: seq<nat>, yesL: seq<seq<nat>>, c: nat, e: nat)
    requires VisitedOk(v, yesL) && c < |yesL|
    ensures VisitedOk(v + (if yesL[c] == [] then [c] else []), yesL[c := [e] + yesL[c]])
  {
    var v2 := v + (if yesL[c] == [] then [c] else []);
    var yesL2 := yesL[c := [e] + yesL[c]];
    forall c' | 0 <= c' < |yesL2| ensures yesL2[c'] != [] <==> c' in v2 {
      if c' == c {
        assert yesL2[c] != [];
        if yesL[c] == [] { assert v2[|v|] == c; } else { assert c in v; }
      } else {
        assert yesL2[c'] == yesL[c'];
      }
    }
  }

  /** Once every yes-list is empty, an element's place is the no-list named by its class id. */
  lemma NoListsOnly(es: seq<Element>, cs: seq<Class>, noL: seq<seq<nat>>, yesL: seq<seq<nat>>, loc: seq<Place>, counter: nat)
    requires Inv(es, cs, noL, yesL, loc, counter, true)
    requires forall c :: 0 <= c < |yesL| ==> yesL[c] == []
    ensures forall x :: 0 <= x < |es| && loc[x] != Unplaced ==> loc[x] == InNo(es[x].classId)
  {
    forall x | 0 <= x < |es| && loc[x] != Unplaced ensures loc[x] == InNo(es[x].classId) {
      assert PlacedOk(es[x], loc[x], noL, yesL, x, counter, true);
    }
  }

  /**
   * After a round, two placed elements share a class id exactly when they
   * shared a list (the same class, and both or neither said yes) before it.
   */
  lemma BlocksToClasses(loc0: seq<Place>, loc: seq<Place>, es: seq<Element>)
    requires SameBlocks(loc0, loc) && |loc| == |es|
    requires forall x :: 0 <= x < |es| && loc[x] != Unplaced ==> loc[x] == InNo(es[x].classId)
    ensures forall x, y :: 0 <= x < |es| && 0 <= y < |es| && loc0[x] != Unplaced && loc0[y] != Unplaced ==>
              (es[x].classId == es[y].classId <==> loc0[x] == loc0[y])
  {
    forall x, y | 0 <= x < |es| && 0 <= y < |es| && loc0[x] != Unplaced && loc0[y] != Unplaced
      ensures es[x].classId == es[y].classId <==> loc0[x] == loc0[y]
    {
      assert loc[x] == InNo(es[x].classId) && loc[y] == InNo(es[y].classId);
    }
  }

  /**
   * The loop at the end of `split_refine`: starting at `head`, follows the
   * next pointers of the list `l` and gives every element on it class id `r`.
   */
  method Relabel(es0: seq<Element>, ghost l: seq<nat>, head: int, r: nat) returns (es: seq<Element>)
    requires Linked(es0, l) && head == Head(l)
    ensures |es| == |es0|
    ensures forall y :: 0 <= y < |es0| ==> es[y] == if y in l then es0[y].(classId := r) else es0[y]
  {
    es := es0;
    var x := head;
    ghost var j := 0;
    while x >= 0
      invariant 0 <= j <= |l| && x == (if j < |l| then l[j] else -1)
      invariant |es| == |es0|
      invariant forall y :: 0 <= y < |es0| ==> es[y] == if y in l[..j] then es0[y].(classId := r) else es0[y]
      decreases |l| - j
    {
      assert l[..j + 1] == l[..j] + [l[j]];
      assert l[j] !in l[..j];
      es := es[x := es[x].(classId := r)];
      x := es[x].nextElement;
      j := j + 1;
    }
    assert l[..j] == l;
  }

  // ---------------------------------------------------------------------------
  // The partition

  class Partition {
    var elements: seq<Element>
    var classes: seq<Class>
    var visitedClasses: seq<nat>
    var yesCounter: nat
    /** The no-list and the yes-list of each class, and where each element sits. */
    ghost var noList: seq<seq<nat>>
    ghost var yesList: seq<seq<nat>>
    ghost var loc: seq<Place>

    ghost predicate Valid()
      reads this
    {
      Inv(elements, classes, noList, yesList, loc, yesCounter, true) && VisitedOk(visitedClasses, yesList)
    }

    /** `Partition::new`: an empty partition, then `initialize`. */
    constructor (n: nat)
      ensures Valid()
      ensures |elements| == n && classes == [] && visitedClasses == [] && yesCounter == 1
      ensures forall e :: 0 <= e < n ==> elements[e] == NewElement && loc[e] == Unplaced
    {
      elements := [];
      classes := [];
      visitedClasses := [];
      yesCounter := 0;
      noList := [];
      yesList := [];
      loc := [];
      new;
      Initialize(n);
    }

    /**
     * `initialize`: the element table is resized to `n` (existing entries
     * kept, new ones `Element::new`), every class dropped, the counter set
     * to 1; `visited_classes` is left as it is, so the partition is
     * consistent when no round was in progress.
     */
    method Initialize(n: nat)
      modifies this
      ensures |elements| == n && classes == [] && yesCounter == 1 && visitedClasses == old(visitedClasses)
      ensures forall e :: 0 <= e < n ==> elements[e] == if e < |old(elements)| then old(elements[e]) else NewElement
      ensures noList == [] && yesList == [] && |loc| == n && forall e :: 0 <= e < n ==> loc[e] == Unplaced
      ensures old(visitedClasses) == [] ==> Valid()
    {
      if n <= |elements| {
        elements := elements[..n];
      } else {
        elements := elements + seq(n - |elements|, _ => NewElement);
      }
      classes := [];
      yesCounter := 1;
      noList := [];
      yesList := [];
      loc := seq(n, _ => Unplaced);
    }

    /** `add_class`: one more, empty, class. */
    method AddClass() returns (c: nat)
      requires Valid()
      modifies this
      ensures Valid()
      ensures c == |old(classes)| && classes == old(classes) + [NewClass]
      ensures noList == old(noList) + [[]] && yesList == old(yesList) + [[]]
      ensures elements == old(elements) && loc == old(loc) && visitedClasses == old(visitedClasses) && yesCounter == old(yesCounter)
    {
      c := |classes|;
      AddClassesInv(elements, classes, noList, yesList, loc, yesCounter, true, visitedClasses, 1);
      assert seq(1, _ => NewClass) == [NewClass];
      assert seq<seq<nat>>(1, _ => []) == [[]];
      classes := classes + [NewClass];
      noList := noList + [[]];
      yesList := yesList + [[]];
    }

    /** `allocate_classes`: `n` more, empty, classes. */
    method AllocateClasses(n: nat)
      requires Valid()
      modifies this
      ensures Valid()
      ensures classes == old(classes) + seq(n, _ => NewClass)
      ensures noList == old(noList) + seq(n, _ => []) && yesList == old(yesList) + seq(n, _ => [])
      ensures elements == old(elements) && loc == old(loc) && visitedClasses == old(visitedClasses) && yesCounter == old(yesCounter)
    {
      AddClassesInv(elements, classes, noList, yesList, loc, yesCounter, true, visitedClasses, n);
      classes := classes + seq(n, _ => NewClass);
      noList := noList + seq(n, _ => []);
      yesList := yesList + seq(n, _ => []);
    }

    /** `add`: element `e`, in no class yet, joins class `c` at the head of its no-list. */
    method Add(e: nat, c: nat)
      requires Valid() && e < |elements| && c < |classes| && loc[e] == Unplaced
      modifies this
      ensures Valid()
      ensures |elements| == old(|elements|) && elements[e].classId == c && loc == old(loc)[e := InNo(c)]
      ensures |classes| == |old(classes)| && classes[c] == old(classes[c]).(size := old(classes[c].size) + 1, noHead := e)
      ensures forall c' :: 0 <= c' < |classes| && c' != c ==> classes[c'] == old(classes[c'])
      ensures noList == old(noList)[c := [e] + old(noList[c])] && yesList == old(yesList)
      ensures visitedClasses == old(visitedClasses) && yesCounter == old(yesCounter)
    {
      assert ClassOk(elements, classes[c], noList[c], yesList[c], loc, c);
      var k := classes[c];
      var noHead := k.noHead;
      var es := elements;
      if noHead >= 0 {
        es := es[noHead := es[noHead].(prevElement := e)];
      }
      es := es[e := es[e].(classId := c, yes := 0, nextElement := noHead, prevElement := -1)];
      var cs := classes[c := k.(size := k.size + 1, noHead := e)];
      ghost var noL := noList[c := [e] + noList[c]];
      ghost var loc2 := loc[e := InNo(c)];
      PushNoInv(elements, classes, noList, yesList, loc, yesCounter, true, e, c, es);
      classes := cs;
      elements := es;
      noList := noL;
      loc := loc2;
    }

    /**
     * The unlinking shared by `move_element` and `split_on`: `e` leaves the
     * no-list of its class, whose size drops by one, and is in no class.
     */
    method Unlink(e: nat)
      requires Valid() && e < |elements| && loc[e].InNo?
      modifies this
      ensures Valid()
      ensures |elements| == old(|elements|) && loc == old(loc)[e := Unplaced]
      ensures elements[e] == old(elements[e])
      ensures |classes| == old(|classes|) && |noList| == old(|noList|)
      ensures forall c' :: 0 <= c' < |classes| ==>
                classes[c'].size == old(classes[c'].size) - (if c' == old(elements[e].classId) then 1 else 0)
                && classes[c'].yesSize == old(classes[c'].yesSize) && classes[c'].yesHead == old(classes[c'].yesHead)
      ensures forall c' :: 0 <= c' < |classes| && c' != old(elements[e].classId) ==> classes[c'] == old(classes[c'])
      ensures forall c' :: 0 <= c' < |noList| ==> noList[c'] == Remove(old(noList[c']), e)
      ensures yesList == old(yesList) && visitedClasses == old(visitedClasses) && yesCounter == old(yesCounter)
    {
      ghost var k := UnlinkPrepare(elements, classes, noList, yesList, loc, yesCounter, true, e);
      var prev := elements[e].prevElement;
      var next := elements[e].nextElement;
      var oc := elements[e].classId;
      var es := elements;
      var cls := classes[oc].(size := classes[oc].size - 1);
      if prev >= 0 {
        es := es[prev := es[prev].(nextElement := next)];
      } else {
        cls := cls.(noHead := next);
      }
      if next >= 0 {
        es := es[next := es[next].(prevElement := prev)];
      }
      UnlinkRemoves(elements, classes, noList, yesList, loc, yesCounter, true, e, oc, k, es, cls);
      classes := classes[oc := cls];
      elements := es;
      noList := RemoveAll(noList, e);
      loc := loc[e := Unplaced];
    }

    /**
     * `move_element`: `e` leaves the no-list of its class (one smaller) and
     * is added to class `c` (one larger).
     */
    method MoveElement(e: nat, c: nat)
      requires Valid() && e < |elements| && c < |classes| && loc[e].InNo?
      modifies this
      ensures Valid()
      ensures |elements| == old(|elements|) && elements[e].classId == c && loc == old(loc)[e := InNo(c)]
      ensures |classes| == old(|classes|)
      ensures forall c' :: 0 <= c' < |classes| ==>
                classes[c'].size == old(classes[c'].size) - (if c' == old(elements[e].classId) then 1 else 0) + (if c' == c then 1 else 0)
      ensures noList[c] == [e] + Remove(old(noList[c]), e)
      ensures forall c' :: 0 <= c' < |noList| && c' != c ==> noList[c'] == Remove(old(noList[c']), e)
      ensures yesList == old(yesList)
      ensures visitedClasses == old(visitedClasses) && yesCounter == old(yesCounter)
    {
      Unlink(e);
      Add(e, c);
    }

    /**
     * `split_on`: `e` says yes. An element already in the yes-list of its
     * class (marked with the current counter) is left alone; otherwise it
     * leaves the no-list for the head of the yes-list, its class size kept,
     * and the class is recorded as visited when its yes-list was empty.
     */
    method SplitOn(e: nat)
      requires Valid() && e < |elements| && loc[e] != Unplaced && elements[e].classId < |classes|
      modifies this
      ensures Valid()
      ensures old(elements[e].yes == yesCounter) <==> old(loc[e]).InYes?
      ensures old(loc[e]).InYes? ==>
                elements == old(elements) && classes == old(classes) && noList == old(noList) && yesList == old(yesList)
                && loc == old(loc) && visitedClasses == old(visitedClasses)
      ensures old(loc[e]).InNo? ==>
                && |elements| == old(|elements|) && loc == old(loc)[e := InYes(old(elements[e].classId))]
                && elements[e].classId == old(elements[e].classId) && elements[e].yes == yesCounter
      ensures old(loc[e]).InNo? ==>
                && |classes| == old(|classes|)
                && classes[old(elements[e].classId)].size == old(classes[elements[e].classId].size)
                && classes[old(elements[e].classId)].yesSize == old(classes[elements[e].classId].yesSize) + 1
                && classes[old(elements[e].classId)].yesHead == e
                && forall c' :: 0 <= c' < |classes| && c' != old(elements[e].classId) ==> classes[c'] == old(classes[c'])
      ensures old(loc[e]).InNo? ==>
                && |noList| == old(|noList|) && (forall c' :: 0 <= c' < |noList| ==> noList[c'] == Remove(old(noList[c']), e))
                && yesList == old(yesList)[old(elements[e].classId) := [e] + old(yesList[elements[e].classId])]
                && visitedClasses == old(visitedClasses) + (if old(yesList[elements[e].classId]) == [] then [old(elements[e].classId)] else [])
      ensures yesCounter == old(yesCounter)
    {
      var c := elements[e].classId;
      assert PlacedOk(elements[e], loc[e], noList, yesList, e, yesCounter, true);
      if elements[e].yes == yesCounter {
        return;
      }
      Unlink(e);
      PushYes(e);
    }

    /**
     * The second half of `split_on`: `e`, in no list but still labelled with
     * its class `c`, goes to the head of the yes-list of `c` with the current
     * mark, and `c` is recorded as visited when that list was empty.
     */
    method PushYes(e: nat)
      requires Valid() && e < |elements| && loc[e] == Unplaced && elements[e].classId < |classes|
      modifies this
      ensures Valid()
      ensures |elements| == old(|elements|) && loc == old(loc)[e := InYes(old(elements[e].classId))]
      ensures elements[e].classId == old(elements[e].classId) && elements[e].yes == yesCounter
      ensures |classes| == old(|classes|)
      ensures classes[old(elements[e].classId)] == old(classes[elements[e].classId]).(
                size := old(classes[elements[e].classId].size) + 1, yesSize := old(classes[elements[e].classId].yesSize) + 1, yesHead := e)
      ensures forall c' :: 0 <= c' < |classes| && c' != old(elements[e].classId) ==> classes[c'] == old(classes[c'])
      ensures noList == old(noList) && yesList == old(yesList)[old(elements[e].classId) := [e] + old(yesList[elements[e].classId])]
      ensures visitedClasses == old(visitedClasses) + (if old(yesList[elements[e].classId]) == [] then [old(elements[e].classId)] else [])
      ensures yesCounter == old(yesCounter)
    {
      var c := elements[e].classId;
      assert ClassOk(elements, classes[c], noList[c], yesList[c], loc, c);
      var yesHead := classes[c].yesHead;
      var es := elements;
      ghost var v := visitedClasses + (if yesList[c] == [] then [c] else []);
      VisitedPush(visitedClasses, yesList, c, e);
      if yesHead >= 0 {
        es := es[yesHead := es[yesHead].(prevElement := e)];
      } else {
        visitedClasses := visitedClasses + [c];
      }
      es := es[e := es[e].(yes := yesCounter, nextElement := yesHead, prevElement := -1)];
      var cls := classes[c].(size := classes[c].size + 1, yesSize := classes[c].yesSize + 1, yesHead := e);
      PushYesInv(elements, classes, noList, yesList, loc, yesCounter, true, e, c, es);
      classes := classes[c := cls];
      elements := es;
      yesList := yesList[c := [e] + yesList[c]];
      loc := loc[e := InYes(c)];
      assert visitedClasses == v;
    }

    /**
     * `split_refine`: the end of a round for class `c`. When every member said
     * yes, the yes-list becomes the no-list and -1 is returned; otherwise the
     * smaller side (the yes side on a tie) becomes the no-list of a new class
     * `r`, whose members are relabelled by walking that list, and `r` is
     * returned.
     */
    method SplitRefine(c: nat) returns (r: int)
      requires Inv(elements, classes, noList, yesList, loc, yesCounter, false) && c < |classes|
      modifies this
      ensures Inv(elements, classes, noList, yesList, loc, yesCounter, false)
      ensures r == -1 <==> old(classes[c].size == classes[c].yesSize)
      ensures r != -1 ==> r == old(|classes|)
      ensures |classes| == old(|classes|) + (if r == -1 then 0 else 1)
      ensures r == -1 ==>
                && noList == old(noList)[c := old(yesList[c])] && yesList == old(yesList)[c := []]
                && loc == AllYesPlaces(old(loc), c) && classes[c].size == old(classes[c].size)
      ensures var movedYes := old(classes[c].yesSize <= classes[c].size - classes[c].yesSize);
              var moved := if movedYes then old(yesList[c]) else old(noList[c]);
              var kept := if movedYes then old(noList[c]) else old(yesList[c]);
              r != -1 ==>
                && noList == (old(noList) + [moved])[c := kept] && yesList == (old(yesList) + [[]])[c := []]
                && loc == SplitPlaces(old(loc), c, r, movedYes)
                && classes[r].size <= classes[c].size && classes[r].size + classes[c].size == old(classes[c].size)
      ensures forall c' :: 0 <= c' < old(|classes|) && c' != c ==> classes[c'] == old(classes[c'])
      ensures SameBlocks(old(loc), loc)
      ensures |elements| == old(|elements|)
      ensures visitedClasses == old(visitedClasses) && yesCounter == old(yesCounter)
    {
      assert ClassOk(elements, classes[c], noList[c], yesList[c], loc, c);
      var yesSize := classes[c].yesSize;
      var size := classes[c].size;
      var noSize := size - yesSize;
      if noSize == 0 {
        RefineAllYesInv(elements, classes, noList, yesList, loc, yesCounter, c);
        classes := classes[c := classes[c].(noHead := classes[c].yesHead, yesHead := -1, yesSize := 0)];
        noList := noList[c := yesList[c]];
        yesList := yesList[c := []];
        loc := AllYesPlaces(loc, c);
        return -1;
      }
      ghost var movedYes := !(noSize < yesSize);
      ghost var moved := if movedYes then yesList[c] else noList[c];
      ghost var kept := if movedYes then noList[c] else yesList[c];
      ghost var es0 := elements;
      ListMembers(elements, classes, noList, yesList, loc, yesCounter, false, c);
      var newClass := |classes|;
      var nc := NewClass;
      var cc := classes[c];
      if noSize < yesSize {
        nc := nc.(noHead := cc.noHead, size := noSize);
        cc := cc.(noHead := cc.yesHead, yesHead := -1, size := yesSize, yesSize := 0);
      } else {
        nc := nc.(size := yesSize, noHead := cc.yesHead);
        cc := cc.(size := noSize, yesSize := 0, yesHead := -1);
      }
      assert nc == NewClass.(size := |moved|, noHead := Head(moved));
      assert cc == classes[c].(size := |kept|, yesSize := 0, noHead := Head(kept), yesHead := -1);
      assert ClassOk(es0, classes[c], noList[c], yesList[c], loc, c);
      var es := Relabel(elements, moved, nc.noHead, newClass);
      RefineSplitInv(es0, classes, noList, yesList, loc, yesCounter, c, movedYes, es);
      elements := es;
      classes := (classes + [nc])[c := cc];
      noList := (noList + [moved])[c := kept];
      yesList := (yesList + [[]])[c := []];
      loc := SplitPlaces(loc, c, newClass, movedYes);
      r := newClass;
    }

    /**
     * `finalize_split`: every class visited this round is refined, in the
     * order of `visited_classes`; the new classes are handed to the queue
     * (returned here, in order) when there is one. The round ends with no
     * visited class and a fresh mark.
     */
    method FinalizeSplit(useQueue: bool) returns (enqueued: seq<nat>)
      requires Valid()
      modifies this
      ensures Valid()
      ensures visitedClasses == [] && yesCounter == old(yesCounter) + 1
      ensures forall c :: 0 <= c < |yesList| ==> yesList[c] == []
      ensures |classes| >= old(|classes|) && |elements| == old(|elements|)
      ensures enqueued == if useQueue then seq(|classes| - old(|classes|), i => old(|classes|) + i) else []
      ensures forall x :: 0 <= x < |loc| ==> (loc[x] == Unplaced <==> old(loc[x]) == Unplaced)
      ensures forall x, y :: 0 <= x < |elements| && 0 <= y < |elements| && old(loc[x]) != Unplaced && old(loc[y]) != Unplaced ==>
                (elements[x].classId == elements[y].classId <==> old(loc[x]) == old(loc[y]))
    {
      ghost var loc0 := loc;
      ghost var n0 := |classes|;
      Loosen(elements, classes, noList, yesList, loc, yesCounter);
      var vc := visitedClasses;
      enqueued := [];
      for i := 0 to |vc|
        invariant Inv(elements, classes, noList, yesList, loc, yesCounter, false)
        invariant yesCounter == old(yesCounter) && visitedClasses == vc && |elements| == old(|elements|)
        invariant |classes| >= n0
        invariant forall c :: 0 <= c < |yesList| && yesList[c] != [] ==> c in vc[i..]
        invariant SameBlocks(loc0, loc)
        invariant enqueued == if useQueue then seq(|classes| - n0, j => n0 + j) else []
      {
        assert vc[i] < |yesList|;
        ghost var loc1 := loc;
        var r := SplitRefine(vc[i]);
        SameBlocksTrans(loc0, loc1, loc);
        if r != -1 && useQueue {
          enqueued := enqueued + [r];
        }
      }
      visitedClasses := [];
      Tighten(elements, classes, noList, yesList, loc, yesCounter);
      yesCounter := yesCounter + 1;
      NoListsOnly(elements, classes, noList, yesList, loc, yesCounter);
      BlocksToClasses(loc0, loc, elements);
    }

    /** `get_class_id`: the class whose list holds a placed element. */
    function GetClassId(e: nat): (c: nat)
      reads this
      requires e < |elements|
      ensures Valid() && e < |loc| && loc[e] != Unplaced ==>
                c < |noList| && (loc[e] == InNo(c) || loc[e] == InYes(c)) && e in noList[c] + yesList[c]
    {
      var c := elements[e].classId;
      assert Valid() && e < |loc| ==> PlacedOk(elements[e], loc[e], noList, yesList, e, yesCounter, true);
      c
    }

    /** `get_class_size`: the number of members of class `c`, in both lists. */
    function GetClassSize(c: nat): (n: nat)
      reads this
      requires c < |classes|
      ensures Valid() ==> n == |noList[c]| + |yesList[c]|
    {
      assert Valid() ==> ClassOk(elements, classes[c], noList[c], yesList[c], loc, c);
      classes[c].size
    }

    /** `num_classes`. */
    function NumClasses(): (n: nat)
      reads this
      ensures Valid() ==> n == |noList| && n == |yesList|
    {
      |classes|
    }

    /**
     * `iter` (with `PartitionIterator::next`): the members of class `c`
     * reached from its no-list head, in list order.
     */
    method Iter(c: nat) returns (members: seq<nat>)
      requires Valid() && c < |classes|
      ensures members == noList[c]
    {
      assert ClassOk(elements, classes[c], noList[c], yesList[c], loc, c);
      ghost var l := noList[c];
      members := [];
      var x := classes[c].noHead;
      while x >= 0
        invariant 0 <= |members| <= |l| && members == l[..|members|]
        invariant x == if |members| < |l| then l[|members|] else -1
        decreases |l| - |members|
      {
        assert l[..|members| + 1] == members + [x];
        members := members + [x];
        x := elements[x].nextElement;
      }
      assert l[..|l|] == l;
    }
  }
}
