/**
 internal/engine/clause_heads.go: the statement a position in the head of a case
 or communication clause is attributed to. The heads are listed in pre-order and
 the last one that holds the position wins; the lemmas show that this is the
 innermost one.
*/
module ClauseHeads {
  import opened Sequences
  /** A switch stands for a switch, a type switch or a select, with the nodes
      before its clauses. Any other node only holds nodes. */
  datatype Node =
    | Switch(pos: int, end: int, header: seq<Node>, clauses: seq<Clause>)
    | Other(pos: int, end: int, children: seq<Node>)

  /** From the keyword to the colon stands the clause's head, with its expressions
      or its communication; the body follows. */
  datatype Clause = Clause(from: int, colon: int, end: int, list: seq<Node>, body: seq<Node>)

  datatype Head = Head(from: int, colon: int, stmt: int)

  const NO_POS: int := 0

  // ----- collecting -----

  /** The heads of a switch's own clauses. */
  function OwnHeads(cs: seq<Clause>, stmt: int): seq<Head> {
    seq(|cs|, i requires 0 <= i < |cs| => Head(cs[i].from, cs[i].colon, stmt))
  }

  /** The heads below a node, in pre-order. */
  function Heads(n: Node): seq<Head>
    decreases n, 0
  {
    match n
    case Switch(pos, _, header, clauses) => OwnHeads(clauses, pos) + HeadsOfList(header) + HeadsInClauses(clauses)
    case Other(_, _, children) => HeadsOfList(children)
  }

  function HeadsOfList(ns: seq<Node>): seq<Head>
    decreases ns, 1
  {
    if ns == [] then [] else Heads(ns[0]) + HeadsOfList(ns[1..])
  }

  function HeadsInClauses(cs: seq<Clause>): seq<Head>
    decreases cs, 1
  {
    if cs == [] then [] else HeadsOfList(cs[0].list) + HeadsOfList(cs[0].body) + HeadsInClauses(cs[1..])
  }

  /** The walk, which appends to the heads found so far. */
  method CollectClauseHeads(n: Node, found: seq<Head>) returns (heads: seq<Head>)
    ensures heads == found + Heads(n)
    decreases n, 0
  {
    heads := found;
    match n
    case Switch(pos, _, header, clauses) =>
      for i := 0 to |clauses|
        invariant heads == found + OwnHeads(clauses[..i], pos)
      {
        heads := heads + [Head(clauses[i].from, clauses[i].colon, pos)];
      }
      assert clauses[..|clauses|] == clauses;
      heads := CollectList(header, heads);
      heads := CollectClauses(clauses, heads);
    case Other(_, _, children) =>
      heads := CollectList(children, heads);
  }

  method CollectList(ns: seq<Node>, found: seq<Head>) returns (heads: seq<Head>)
    ensures heads == found + HeadsOfList(ns)
    decreases ns, 1
  {
    heads := found;
    for i := 0 to |ns|
      invariant heads + HeadsOfList(ns[i..]) == found + HeadsOfList(ns)
    {
      assert ns[i..][0] == ns[i] && ns[i..][1..] == ns[i + 1..];
      heads := CollectClauseHeads(ns[i], heads);
    }
  }

  method CollectClauses(cs: seq<Clause>, found: seq<Head>) returns (heads: seq<Head>)
    ensures heads == found + HeadsInClauses(cs)
    decreases cs, 1
  {
    heads := found;
    for i := 0 to |cs|
      invariant heads + HeadsInClauses(cs[i..]) == found + HeadsInClauses(cs)
    {
      ghost var a, b, rest := HeadsOfList(cs[i].list), HeadsOfList(cs[i].body), HeadsInClauses(cs[i + 1..]);
      assert cs[i..][0] == cs[i] && cs[i..][1..] == cs[i + 1..];
      Assoc(heads, a + b, rest);
      Assoc(heads, a, b);
      heads := CollectList(cs[i].list, heads);
      heads := CollectList(cs[i].body, heads);
    }
  }

  // ----- the lookup -----

  predicate Holds(h: Head, pos: int) {
    h.from <= pos <= h.colon
  }

  /** The statement of the last head that holds the position. */
  function LastHolding(heads: seq<Head>, pos: int): int {
    if heads == [] then NO_POS
    else if Holds(heads[|heads| - 1], pos) then heads[|heads| - 1].stmt
    else LastHolding(heads[..|heads| - 1], pos)
  }

  method Anchor(heads: seq<Head>, pos: int) returns (anchor: int)
    ensures anchor == LastHolding(heads, pos)
  {
    anchor := NO_POS;
    for i := 0 to |heads|
      invariant anchor == LastHolding(heads[..i], pos)
    {
      assert heads[..i + 1][..i] == heads[..i];
      if Holds(heads[i], pos) {
        anchor := heads[i].stmt;
      }
    }
    assert heads[..|heads|] == heads;
  }

  // ----- the heads are those of the switches in the tree -----

  /** s is n or a node below it. */
  ghost predicate Within(s: Node, n: Node)
    decreases n, 0
  {
    s == n ||
    match n
    case Switch(_, _, header, clauses) =>
      WithinList(s, header) || exists i :: 0 <= i < |clauses| && WithinClause(s, clauses[i])
    case Other(_, _, children) => WithinList(s, children)
  }

  ghost predicate WithinList(s: Node, ns: seq<Node>)
    decreases ns, 1
  {
    exists i :: 0 <= i < |ns| && Within(s, ns[i])
  }

  ghost predicate WithinClause(s: Node, c: Clause)
    decreases c, 2
  {
    WithinList(s, c.list) || WithinList(s, c.body)
  }

  /** h stands for the i-th clause of the switch s. */
  predicate IsHeadOf(h: Head, s: Node, i: nat) {
    s.Switch? && i < |s.clauses| && h == Head(s.clauses[i].from, s.clauses[i].colon, s.pos)
  }

  lemma {:induction false} HeadIsInTree(n: Node, h: Head) returns (s: Node, i: nat)
    requires h in Heads(n)
    ensures Within(s, n) && IsHeadOf(h, s, i)
    decreases n, 0
  {
    match n
    case Switch(pos, _, header, clauses) =>
      if h in OwnHeads(clauses, pos) {
        s, i :| s == n && 0 <= i < |clauses| && OwnHeads(clauses, pos)[i] == h;
      } else if h in HeadsOfList(header) {
        s, i := HeadIsInList(header, h);
      } else {
        s, i := HeadIsInClauses(clauses, h);
      }
    case Other(_, _, children) =>
      s, i := HeadIsInList(children, h);
  }

  lemma {:induction false} HeadIsInList(ns: seq<Node>, h: Head) returns (s: Node, i: nat)
    requires h in HeadsOfList(ns)
    ensures WithinList(s, ns) && IsHeadOf(h, s, i)
    decreases ns, 1
  {
    if h in Heads(ns[0]) {
      s, i := HeadIsInTree(ns[0], h);
    } else {
      s, i := HeadIsInList(ns[1..], h);
      var k :| 0 <= k < |ns[1..]| && Within(s, ns[1..][k]);
      assert Within(s, ns[k + 1]);
    }
  }

  lemma {:induction false} HeadIsInClauses(cs: seq<Clause>, h: Head) returns (s: Node, i: nat)
    requires h in HeadsInClauses(cs)
    ensures (exists k :: 0 <= k < |cs| && WithinClause(s, cs[k])) && IsHeadOf(h, s, i)
    decreases cs, 1
  {
    if h in HeadsOfList(cs[0].list) {
      s, i := HeadIsInList(cs[0].list, h);
      assert WithinClause(s, cs[0]);
    } else if h in HeadsOfList(cs[0].body) {
      s, i := HeadIsInList(cs[0].body, h);
      assert WithinClause(s, cs[0]);
    } else {
      s, i := HeadIsInClauses(cs[1..], h);
      var k :| 0 <= k < |cs[1..]| && WithinClause(s, cs[1..][k]);
      assert WithinClause(s, cs[k + 1]);
    }
  }

  lemma {:induction false} HeadIsListed(n: Node, s: Node, i: nat, h: Head)
    requires Within(s, n) && IsHeadOf(h, s, i)
    ensures h in Heads(n)
    decreases n, 0
  {
    if s == n {
      assert OwnHeads(n.clauses, n.pos)[i] == h;
    } else {
      match n
      case Switch(_, _, header, clauses) =>
        if WithinList(s, header) {
          HeadIsListedInList(header, s, i, h);
        } else {
          var k :| 0 <= k < |clauses| && WithinClause(s, clauses[k]);
          HeadIsListedInClauses(clauses, k, s, i, h);
        }
      case Other(_, _, children) =>
        HeadIsListedInList(children, s, i, h);
    }
  }

  lemma {:induction false} HeadIsListedInList(ns: seq<Node>, s: Node, i: nat, h: Head)
    requires WithinList(s, ns) && IsHeadOf(h, s, i)
    ensures h in HeadsOfList(ns)
    decreases ns, 1
  {
    var k :| 0 <= k < |ns| && Within(s, ns[k]);
    if k == 0 {
      HeadIsListed(ns[0], s, i, h);
    } else {
      assert Within(s, ns[1..][k - 1]);
      HeadIsListedInList(ns[1..], s, i, h);
    }
  }

  lemma {:induction false} HeadIsListedInClauses(cs: seq<Clause>, k: nat, s: Node, i: nat, h: Head)
    requires k < |cs| && WithinClause(s, cs[k]) && IsHeadOf(h, s, i)
    ensures h in HeadsInClauses(cs)
    decreases cs, 1
  {
    if k > 0 {
      HeadIsListedInClauses(cs[1..], k - 1, s, i, h);
    } else if WithinList(s, cs[0].list) {
      HeadIsListedInList(cs[0].list, s, i, h);
    } else {
      HeadIsListedInList(cs[0].body, s, i, h);
    }
  }

  /** Every clause of every switch in the tree has its head in the list, however
      deeply it is nested, and nothing else is in it. */
  lemma HeadsAreThoseOfSwitches(root: Node, h: Head)
    ensures h in Heads(root) <==> exists s, i: nat :: Within(s, root) && IsHeadOf(h, s, i)
  {
    if h in Heads(root) {
      var s, i := HeadIsInTree(root, h);
    }
    forall s, i: nat | Within(s, root) && IsHeadOf(h, s, i) ensures h in Heads(root) {
      HeadIsListed(root, s, i, h);
    }
  }

  // ----- well-nested trees -----

  /** Where the clauses start, or the end of the switch without any. */
  function Begin(cs: seq<Clause>, hi: int): int {
    if cs == [] then hi else cs[0].from
  }

  /** Nodes lie inside their parents, siblings follow one another, the list of a
      clause lies inside its head and its body after the colon. Nodes below which
      there is no clause may lie anywhere: a function's type starts in front of its
      receiver and name, and an implicit empty statement has no width. */
  predicate WellNested(n: Node)
    decreases n, 0
  {
    && 0 < n.pos < n.end
    && match n
       case Switch(pos, end, header, clauses) =>
         NestedList(header, pos, Begin(clauses, end)) && NestedClauses(clauses, pos, end)
       case Other(pos, end, children) => NestedList(children, pos, end)
  }

  predicate NestedList(ns: seq<Node>, lo: int, hi: int)
    decreases ns, 1
  {
    if ns == [] then lo <= hi
    else if Heads(ns[0]) == [] then NestedList(ns[1..], lo, hi)
    else lo <= ns[0].pos && WellNested(ns[0]) && NestedList(ns[1..], ns[0].end, hi)
  }

  predicate NestedClauses(cs: seq<Clause>, lo: int, hi: int)
    decreases cs, 1
  {
    if cs == [] then lo <= hi
    else
      var c := cs[0];
      && lo <= c.from < c.colon < c.end
      && NestedList(c.list, c.from + 1, c.colon)
      && NestedList(c.body, c.colon + 1, c.end)
      && NestedClauses(cs[1..], c.end, hi)
  }

  // ----- heads of well-nested trees -----

  predicate Inside(hs: seq<Head>, lo: int, hi: int) {
    forall i :: 0 <= i < |hs| ==> 0 < hs[i].stmt && lo <= hs[i].from < hs[i].colon < hi
  }

  /** The later head is properly inside the earlier one or they do not meet. */
  predicate Apart(earlier: Head, later: Head) {
    || (earlier.from < later.from && later.colon < earlier.colon)
    || earlier.colon < later.from
    || later.colon < earlier.from
  }

  predicate AllApart(hs: seq<Head>) {
    forall i, j :: 0 <= i < j < |hs| ==> Apart(hs[i], hs[j])
  }

  predicate CrossApart(a: seq<Head>, b: seq<Head>) {
    forall i, j :: 0 <= i < |a| && 0 <= j < |b| ==> Apart(a[i], b[j])
  }

  lemma {:induction false} NodeHeads(n: Node)
    requires WellNested(n)
    ensures Inside(Heads(n), n.pos, n.end) && AllApart(Heads(n))
    decreases n, 0
  {
    match n
    case Switch(pos, end, header, clauses) =>
      ListHeads(header, pos, Begin(clauses, end));
      OwnHeadsApart(clauses, pos, pos, end);
      ClausesHeads(clauses, pos, pos, end);
    case Other(pos, end, children) =>
      ListHeads(children, pos, end);
  }

  lemma {:induction false} ListHeads(ns: seq<Node>, lo: int, hi: int)
    requires NestedList(ns, lo, hi)
    ensures lo <= hi && Inside(HeadsOfList(ns), lo, hi) && AllApart(HeadsOfList(ns))
    decreases ns, 1
  {
    if ns != [] {
      if Heads(ns[0]) == [] {
        ListHeads(ns[1..], lo, hi);
      } else {
        NodeHeads(ns[0]);
        ListHeads(ns[1..], ns[0].end, hi);
      }
    }
  }

  /** The own heads of a switch do not meet. */
  lemma {:induction false} OwnHeadsApart(cs: seq<Clause>, stmt: int, lo: int, hi: int)
    requires NestedClauses(cs, lo, hi) && stmt > 0
    ensures lo <= Begin(cs, hi) <= hi
    ensures Inside(OwnHeads(cs, stmt), Begin(cs, hi), hi) && AllApart(OwnHeads(cs, stmt))
    decreases cs, 1
  {
    if cs != [] {
      var c, rest := cs[0], cs[1..];
      OwnHeadsApart(rest, stmt, c.end, hi);
      OwnHeadsStep(cs, stmt);
    }
  }

  lemma OwnHeadsStep(cs: seq<Clause>, stmt: int)
    requires cs != []
    ensures OwnHeads(cs, stmt) == [Head(cs[0].from, cs[0].colon, stmt)] + OwnHeads(cs[1..], stmt)
  {
  }

  /** What is below a clause is inside its head or meets no head of the switch. */
  lemma {:induction false} ClausesHeads(cs: seq<Clause>, stmt: int, lo: int, hi: int)
    requires NestedClauses(cs, lo, hi) && stmt > 0
    ensures Inside(HeadsInClauses(cs), Begin(cs, hi), hi) && AllApart(HeadsInClauses(cs))
    ensures CrossApart(OwnHeads(cs, stmt), HeadsInClauses(cs))
    decreases cs, 1
  {
    if cs != [] {
      var c, rest := cs[0], cs[1..];
      ListHeads(c.list, c.from + 1, c.colon);
      ListHeads(c.body, c.colon + 1, c.end);
      OwnHeadsApart(rest, stmt, c.end, hi);
      ClausesHeads(rest, stmt, c.end, hi);
      OwnHeadsStep(cs, stmt);
      ClauseIsApart(c, stmt, OwnHeads(rest, stmt), HeadsOfList(c.list), HeadsOfList(c.body), HeadsInClauses(rest), hi);
    }
  }

  lemma ClauseIsApart(c: Clause, stmt: int, heads: seq<Head>, a: seq<Head>, b: seq<Head>, d: seq<Head>, hi: int)
    requires c.from < c.colon < c.end <= hi
    requires Inside(a, c.from + 1, c.colon) && Inside(b, c.colon + 1, c.end) && Inside(d, c.end, hi)
    requires Inside(heads, c.end, hi) && CrossApart(heads, d)
    requires AllApart(a) && AllApart(b) && AllApart(d)
    ensures CrossApart([Head(c.from, c.colon, stmt)] + heads, a + b + d)
    ensures Inside(a + b + d, c.from, hi) && AllApart(a + b + d)
  {
  }

  // ----- the innermost head -----

  /** A head that holds the position and is inside every head that does. */
  ghost predicate Innermost(heads: seq<Head>, pos: int, h: Head) {
    && h in heads && Holds(h, pos)
    && forall g :: g in heads && Holds(g, pos) ==> g.from <= h.from && h.colon <= g.colon
  }

  lemma {:induction false} LastIsInnermost(heads: seq<Head>, pos: int)
    requires AllApart(heads) && forall i :: 0 <= i < |heads| ==> heads[i].stmt > 0
    ensures LastHolding(heads, pos) == NO_POS <==> forall h :: h in heads ==> !Holds(h, pos)
    ensures LastHolding(heads, pos) != NO_POS ==>
      exists h :: Innermost(heads, pos, h) && h.stmt == LastHolding(heads, pos)
  {
    if heads != [] {
      var k := |heads| - 1;
      var last, front := heads[k], heads[..k];
      assert heads == front + [last];
      if Holds(last, pos) {
        forall g | g in heads && Holds(g, pos)
          ensures g.from <= last.from && last.colon <= g.colon
        {
          var i :| 0 <= i < |heads| && heads[i] == g;
          assert i < k ==> Apart(heads[i], heads[k]);
        }
        assert Innermost(heads, pos, last);
      } else {
        LastIsInnermost(front, pos);
        if LastHolding(front, pos) != NO_POS {
          var h :| Innermost(front, pos, h) && h.stmt == LastHolding(front, pos);
          assert Innermost(heads, pos, h);
        }
      }
    }
  }

  /** In a well-nested tree the anchor of a position is the statement of the
      innermost clause head that holds it, and there is none exactly when no
      clause head holds it. */
  lemma AnchorIsInnermost(root: Node, pos: int)
    requires WellNested(root)
    ensures LastHolding(Heads(root), pos) == NO_POS <==> forall h :: h in Heads(root) ==> !Holds(h, pos)
    ensures forall h :: Innermost(Heads(root), pos, h) ==> h.stmt == LastHolding(Heads(root), pos)
    ensures (exists h :: Innermost(Heads(root), pos, h)) || forall h :: h in Heads(root) ==> !Holds(h, pos)
  {
    var heads := Heads(root);
    NodeHeads(root);
    LastIsInnermost(heads, pos);
    if LastHolding(heads, pos) != NO_POS {
      var last :| Innermost(heads, pos, last) && last.stmt == LastHolding(heads, pos);
      forall h | Innermost(heads, pos, h)
        ensures h == last
      {
        InnermostIsUnique(heads, pos, h, last);
      }
    }
  }

  /** The i-th clause of the switch s has the position from its keyword to its colon. */
  ghost predicate ClauseHolds(root: Node, s: Node, i: nat, pos: int) {
    Within(s, root) && s.Switch? && i < |s.clauses| && s.clauses[i].from <= pos <= s.clauses[i].colon
  }

  /** The position stands in that clause's head and in no head inside it. */
  ghost predicate HoldsClosest(root: Node, s: Node, i: nat, pos: int) {
    && ClauseHolds(root, s, i, pos)
    && forall t, j: nat :: ClauseHolds(root, t, j, pos) ==>
         t.clauses[j].from <= s.clauses[i].from && s.clauses[i].colon <= t.clauses[j].colon
  }

  lemma HoldingHead(root: Node, s: Node, i: nat, pos: int) returns (h: Head)
    requires ClauseHolds(root, s, i, pos)
    ensures h in Heads(root) && Holds(h, pos) && IsHeadOf(h, s, i)
  {
    h := Head(s.clauses[i].from, s.clauses[i].colon, s.pos);
    HeadIsListed(root, s, i, h);
  }

  lemma HoldingClause(root: Node, h: Head, pos: int) returns (s: Node, i: nat)
    requires h in Heads(root) && Holds(h, pos)
    ensures ClauseHolds(root, s, i, pos) && IsHeadOf(h, s, i)
  {
    s, i := HeadIsInTree(root, h);
  }

  lemma ClosestIsInnermost(root: Node, s: Node, i: nat, pos: int, h: Head)
    requires IsHeadOf(h, s, i)
    ensures HoldsClosest(root, s, i, pos) ==> Innermost(Heads(root), pos, h)
    ensures Innermost(Heads(root), pos, h) && Within(s, root) ==> HoldsClosest(root, s, i, pos)
  {
    if HoldsClosest(root, s, i, pos) {
      var own := HoldingHead(root, s, i, pos);
      forall g | g in Heads(root) && Holds(g, pos) ensures g.from <= h.from && h.colon <= g.colon {
        var t, j := HoldingClause(root, g, pos);
      }
    }
    if Innermost(Heads(root), pos, h) && Within(s, root) {
      forall t, j: nat | ClauseHolds(root, t, j, pos)
        ensures t.clauses[j].from <= s.clauses[i].from && s.clauses[i].colon <= t.clauses[j].colon
      {
        var g := HoldingHead(root, t, j, pos);
      }
    }
  }

  /** The anchor in terms of the tree: where a position stands in the head of some
      clause, it is the switch of the closest one, and none elsewhere. */
  lemma AnchorIsClosestSwitch(root: Node, pos: int)
    requires WellNested(root)
    ensures LastHolding(Heads(root), pos) == NO_POS <==> forall s, i: nat :: !ClauseHolds(root, s, i, pos)
    ensures forall s, i: nat :: HoldsClosest(root, s, i, pos) ==> LastHolding(Heads(root), pos) == s.pos
    ensures (exists s, i: nat :: ClauseHolds(root, s, i, pos)) ==> exists s, i: nat :: HoldsClosest(root, s, i, pos)
  {
    AnchorIsInnermost(root, pos);
    forall s, i: nat | ClauseHolds(root, s, i, pos) ensures exists h :: h in Heads(root) && Holds(h, pos) {
      var h := HoldingHead(root, s, i, pos);
    }
    forall h | h in Heads(root) && Holds(h, pos) ensures exists s, i: nat :: ClauseHolds(root, s, i, pos) {
      var s, i := HoldingClause(root, h, pos);
    }
    forall s, i: nat | HoldsClosest(root, s, i, pos) ensures LastHolding(Heads(root), pos) == s.pos {
      ClosestIsInnermost(root, s, i, pos, Head(s.clauses[i].from, s.clauses[i].colon, s.pos));
    }
    if h :| Innermost(Heads(root), pos, h) {
      var s, i := HoldingClause(root, h, pos);
      ClosestIsInnermost(root, s, i, pos, h);
    }
  }

  lemma InnermostIsUnique(heads: seq<Head>, pos: int, g: Head, h: Head)
    requires AllApart(heads) && Innermost(heads, pos, g) && Innermost(heads, pos, h)
    ensures g == h
  {
    var i: nat :| i < |heads| && heads[i] == g;
    var j: nat :| j < |heads| && heads[j] == h;
    if i != j {
      PairIsApart(heads, i, j);
    }
  }

  lemma PairIsApart(heads: seq<Head>, i: nat, j: nat)
    requires AllApart(heads) && i < |heads| && j < |heads| && i != j
    ensures Apart(heads[i], heads[j]) || Apart(heads[j], heads[i])
  {
  }
}
