/**
 mutator/composite/field_clear.go: dropping one element of a composite literal.
 The mutations of a literal share one scratch array, which each Change fills
 anew, so their edits have to be kept apart by the order of the calls alone.
*/
module FieldClear {
  import opened Sequences
  import opened Slices

  datatype Elt = KeyValue(id: int, zeroish: bool, safe: bool) | Positional(id: int)

  predicate IsClearable(e: Elt) {
    e.KeyValue? && !e.zeroish && e.safe
  }

  class CompositeLit {
    var elts: Slice<Elt>

    constructor (elts: Slice<Elt>)
      ensures this.elts == elts
    {
      this.elts := elts;
    }
  }

  /** What the closures of one literal capture. */
  class Clearing {
    const lit: CompositeLit
    const original: Slice<Elt>
    var scratch: array?<Elt>

    constructor (lit: CompositeLit)
      ensures this.lit == lit && original == lit.elts && scratch == null
    {
      this.lit, original, scratch := lit, lit.elts, null;
    }

    /** The literal as parsed is elements, whatever lit.elts is now. */
    ghost predicate Keeps(elements: seq<Elt>)
      reads this, original.data
    {
      && original.Valid() && original.Elements() == elements
      && (scratch != null ==> scratch != original.data && scratch.Length == |elements| - 1)
    }

    method Change(idx: nat, ghost elements: seq<Elt>)
      requires Keeps(elements) && scratch != null && idx < |elements|
      modifies lit, scratch
      ensures Keeps(elements)
      ensures lit.elts.Valid() && lit.elts.Elements() == RemoveAt(elements, idx)
    {
      Copy(scratch, 0, original.data, 0, idx);
      Copy(scratch, idx, original.data, idx + 1, original.len - idx - 1);
      lit.elts := Slice(scratch, scratch.Length);
    }

    method Reset(ghost elements: seq<Elt>)
      requires Keeps(elements)
      modifies lit
      ensures Keeps(elements) && lit.elts == original
    {
      lit.elts := original;
    }
  }

  /** The places of the elements that are dropped, in order. */
  function Clearable(elements: seq<Elt>, n: nat): seq<nat>
    requires n <= |elements|
  {
    if n == 0 then []
    else Clearable(elements, n - 1) + if IsClearable(elements[n - 1]) then [n - 1] else []
  }

  lemma {:induction false} ClearableAreTheClearable(elements: seq<Elt>, n: nat)
    requires n <= |elements|
    ensures forall i :: i in Clearable(elements, n) <==>
      0 <= i < n && elements[i].KeyValue? && !elements[i].zeroish && elements[i].safe
    ensures forall i, j :: 0 <= i < j < |Clearable(elements, n)| ==>
            Clearable(elements, n)[i] < Clearable(elements, n)[j]
  {
    if n > 0 {
      ClearableAreTheClearable(elements, n - 1);
      var front := Clearable(elements, n - 1);
      assert forall i :: 0 <= i < |front| ==> front[i] in front;
    }
  }

  method MutatorFieldClear(lit: CompositeLit) returns (places: seq<nat>, m: Clearing)
    requires lit.elts.Valid()
    ensures fresh(m) && m.lit == lit && m.original == lit.elts && m.Keeps(lit.elts.Elements())
    ensures places == Clearable(lit.elts.Elements(), lit.elts.len)
    ensures m.scratch != null ==> fresh(m.scratch)
    ensures places != [] ==> m.scratch != null
  {
    m := new Clearing(lit);
    places := [];
    ghost var elements := lit.elts.Elements();
    for i := 0 to lit.elts.len
      invariant m.Keeps(elements) && lit.elts.Elements() == elements
      invariant places == Clearable(elements, i)
      invariant m.scratch != null ==> fresh(m.scratch)
      invariant places != [] ==> m.scratch != null
    {
      if !IsClearable(lit.elts.data[i]) {
        continue;
      }
      if m.scratch == null {
        m.scratch := new Elt[m.original.len - 1];
      }
      places := places + [i];
    }
  }

  /** The edits the closures show when they are called in any order, any number
      of times, each reset before the next change. */
  method CallClosures(m: Clearing, order: seq<nat>, ghost elements: seq<Elt>) returns (ghost seen: seq<seq<Elt>>)
    requires m.Keeps(elements) && m.lit.elts == m.original
    requires m.scratch != null && forall k :: 0 <= k < |order| ==> order[k] < |elements|
    modifies m.lit, m.scratch
    ensures |seen| == |order| && forall k :: 0 <= k < |order| ==> seen[k] == RemoveAt(elements, order[k])
    ensures m.Keeps(elements) && m.lit.elts == m.original
  {
    seen := [];
    for n := 0 to |order|
      invariant m.Keeps(elements) && m.lit.elts == m.original
      invariant |seen| == n && forall k :: 0 <= k < n ==> seen[k] == RemoveAt(elements, order[k])
    {
      m.Change(order[n], elements);
      seen := seen + [m.lit.elts.Elements()];
      m.Reset(elements);
    }
  }
}
