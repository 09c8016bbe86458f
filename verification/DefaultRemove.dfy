/**
 mutator/select/default_remove.go: removing the default clause of a select. The
 change shifts the clauses inside their array; the reset installs a snapshot
 array, which the next change would shift in turn.
*/
module DefaultRemove {
  import opened Sequences
  import opened Slices

  /** A communication clause; safe when removing it leaves no import or variable unused. */
  datatype Clause = Clause(id: int, isDefault: bool, safe: bool)

  class SelectStmt {
    var list: Slice<Clause>

    constructor (list: Slice<Clause>)
      ensures this.list == list
    {
      this.list := list;
    }

    ghost predicate Holds(clauses: seq<Clause>)
      reads this, list.data
    {
      list.Valid() && list.Elements() == clauses
    }
  }

  /** What the two closures of a mutation capture. */
  class Removal {
    const stmt: SelectStmt
    const li: nat
    const original: Slice<Clause>

    constructor (stmt: SelectStmt, li: nat, original: Slice<Clause>)
      ensures this.stmt == stmt && this.li == li && this.original == original
    {
      this.stmt, this.li, this.original := stmt, li, original;
    }

    method Change()
      requires stmt.list.Valid() && li < stmt.list.len
      modifies stmt, stmt.list.data
      ensures stmt.Holds(RemoveAt(old(stmt.list.Elements()), li))
      ensures stmt.list.data == old(stmt.list.data)
      ensures stmt.list.data[..] ==
        old(stmt.list.data[..li] + stmt.list.data[li + 1..stmt.list.len] + stmt.list.data[stmt.list.len - 1..])
    {
      CloseGap(stmt.list.data, li, stmt.list.len);
      stmt.list := Slice(stmt.list.data, stmt.list.len - 1);
    }

    method Reset()
      modifies stmt
      ensures stmt.list == original
    {
      stmt.list := original;
    }
  }

  /** The first default clause is at i. */
  ghost predicate FirstDefault(clauses: seq<Clause>, i: nat) {
    && i < |clauses| && clauses[i].isDefault
    && forall j :: 0 <= j < i ==> !clauses[j].isDefault
  }

  /** Whether there is a mutation for the clause at i. */
  ghost predicate Mutates(clauses: seq<Clause>, i: nat) {
    |clauses| >= 2 && FirstDefault(clauses, i) && clauses[i].safe
  }

  method MutatorSelectDefaultRemove(stmt: SelectStmt) returns (m: Removal?)
    requires stmt.list.Valid()
    ensures m == null <==> forall i: nat :: !Mutates(stmt.list.Elements(), i)
    ensures var cs := stmt.list.Elements();
      m != null ==>
        && |cs| >= 2 && m.li < |cs| && cs[m.li].isDefault && cs[m.li].safe
        && forall j :: 0 <= j < m.li ==> !cs[j].isDefault
    ensures var cs := stmt.list.Elements();
      m == null ==> |cs| < 2 || forall i :: 0 <= i < |cs| && cs[i].isDefault ==>
        !cs[i].safe || exists j :: 0 <= j < i && cs[j].isDefault
    ensures m != null ==>
              && fresh(m) && m.stmt == stmt && Mutates(stmt.list.Elements(), m.li)
              && fresh(m.original.data) && m.original.Valid() && m.original.len == m.original.data.Length
              && m.original.Elements() == stmt.list.Elements()
  {
    ghost var clauses := stmt.list.Elements();
    if stmt.list.len < 2 {
      return null;
    }
    for i := 0 to stmt.list.len
      invariant stmt.list.Valid() && stmt.list.Elements() == clauses
      invariant forall j :: 0 <= j < i ==> !clauses[j].isDefault
    {
      var comm := stmt.list.data[i];
      assert comm == clauses[i];
      if !comm.isDefault {
        continue;
      }
      assert FirstDefault(clauses, i);
      if !comm.safe {
        assert forall j: nat | Mutates(clauses, j) :: j == i;
        return null;
      }
      var original := new Clause[stmt.list.len];
      Copy(original, 0, stmt.list.data, 0, stmt.list.len);
      assert original[..] == clauses;
      assert Mutates(clauses, i);
      return new Removal(stmt, i, Slice(original, stmt.list.len));
    }
    return null;
  }

  // ----- one use per mutation, as the walks make it -----

  /** Each walk asks the mutator again and uses what it returns once: every walk
      sees the removal and leaves the clauses as they were. */
  method WalkRepeatedly(stmt: SelectStmt, times: nat, ghost clauses: seq<Clause>) returns (ghost seen: seq<seq<Clause>>)
    requires stmt.Holds(clauses)
    modifies stmt, stmt.list.data
    ensures stmt.Holds(clauses)
    ensures forall k :: 0 <= k < |seen| ==> exists i: nat :: Mutates(clauses, i) && seen[k] == RemoveAt(clauses, i)
    ensures |seen| == if exists i: nat :: Mutates(clauses, i) then times else 0
  {
    seen := [];
    for n := 0 to times
      invariant stmt.Holds(clauses)
      invariant stmt.list.data == old(stmt.list.data) || fresh(stmt.list.data)
      invariant forall k :: 0 <= k < |seen| ==> exists i: nat :: Mutates(clauses, i) && seen[k] == RemoveAt(clauses, i)
      invariant |seen| == if exists i: nat :: Mutates(clauses, i) then n else 0
    {
      var m := MutatorSelectDefaultRemove(stmt);
      if m != null {
        m.Change();
        seen := seen + [stmt.list.Elements()];
        m.Reset();
      }
    }
  }

  // ----- the same mutation used again -----

  /** What a use of the mutation does to its own snapshot, once that is installed. */
  function Shifted(clauses: seq<Clause>, li: nat): seq<Clause>
    requires li < |clauses|
  {
    RemoveAt(clauses, li) + [clauses[|clauses| - 1]]
  }

  function ShiftedTimes(clauses: seq<Clause>, li: nat, times: nat): (r: seq<Clause>)
    requires li < |clauses|
    ensures |r| == |clauses|
  {
    if times == 0 then clauses else Shifted(ShiftedTimes(clauses, li, times - 1), li)
  }

  /** A use that finds its own snapshot installed shifts it. */
  method UseAgain(m: Removal)
    requires m.stmt.list == m.original && m.original.Valid() && m.original.len == m.original.data.Length &&
             m.li < m.original.len
    modifies m.stmt, m.original.data
    ensures m.stmt.list == m.original
    ensures m.original.data[..] == Shifted(old(m.original.data[..]), m.li)
  {
    m.Change();
    m.Reset();
  }

  /** After one use the closures work on their own snapshot, and each further use
      shifts it once. */
  method Reuse(m: Removal, again: nat, ghost clauses: seq<Clause>)
    requires m.stmt.Holds(clauses) && m.li < |clauses|
    requires m.original.Valid() && m.original.len == m.original.data.Length && m.original.Elements() == clauses
    requires m.original.data != m.stmt.list.data
    modifies m.stmt, m.stmt.list.data, m.original.data
    ensures m.stmt.Holds(ShiftedTimes(clauses, m.li, again))
  {
    m.Change();
    m.Reset();
    assert m.original.data[..] == clauses;
    for n := 0 to again
      invariant m.stmt.list == m.original
      invariant m.original.data[..] == ShiftedTimes(clauses, m.li, n)
    {
      UseAgain(m);
    }
  }

  lemma {:induction false} ShiftPushesLastDown(clauses: seq<Clause>, li: nat, times: nat)
    requires li < |clauses| && times > 0
    ensures var r := ShiftedTimes(clauses, li, times);
            && r[|r| - 1] == clauses[|clauses| - 1]
            && (li + 1 < |r| ==> r[|r| - 2] == r[|r| - 1])
            && (li + 1 == |r| ==> r == clauses)
  {
    if times > 1 {
      ShiftPushesLastDown(clauses, li, times - 1);
    }
  }

  /** Used again, the mutation restores the select exactly when its default clause
      is the last one; otherwise the last clause is there twice afterwards. */
  lemma ReuseRestoresIffLast(clauses: seq<Clause>, li: nat, again: nat)
    requires li < |clauses| && forall i, j :: 0 <= i < j < |clauses| ==> clauses[i] != clauses[j]
    ensures ShiftedTimes(clauses, li, again) == clauses <==> again == 0 || li + 1 == |clauses|
  {
    if again > 0 {
      ShiftPushesLastDown(clauses, li, again);
      assert li + 1 < |clauses| ==> clauses[|clauses| - 2] != clauses[|clauses| - 1];
    }
  }
}
