/**
 The incremental index of astutil/query.go: it keeps every identifier and
 definition it has met in position order and answers a query from the range of
 the statements, walking them only when no earlier query covered that range.
*/
module IdentifierIndex {
  import opened Sequences
  import opened Wrappers
  import opened GoSort
  import opened GoNodes
  import opened IdentifierSpec
  import opened IdentifierAnswers

  datatype Event = Event(pos: int, expr: Node, obj: Option<Object>)
  datatype Definition = Definition(pos: int, obj: Object)
  datatype PositionRange = PositionRange(start: int, end: int)

  function EventOf(info: Info, n: Node): Event {
    Event(n.Pos(), n, ObjectOf(info, n))
  }

  predicate Defines(info: Info, n: Node) {
    n.Ident? && VariableDef(info, n).Some?
  }

  function DefinitionOf(info: Info, n: Node): Definition
    requires Defines(info, n)
  {
    Definition(n.Pos(), VariableDef(info, n).value)
  }

  /** A copy of the expression of an event, or nothing for one that cannot be used. */
  function CloneEvent(info: Info, n: Node): seq<Expr> {
    if n.Ident? then [Name(n.name)]
    else if n.Selector? && n.IsChain() && !IsUnusable(info, n) then [CloneSelector(info, n)]
    else []
  }

  function Exprs(es: seq<Event>): seq<Node> {
    seq(|es|, i requires 0 <= i < |es| => es[i].expr)
  }

  const EVENT_KEY: Event -> int := (e: Event) => e.pos
  const DEFINITION_KEY: Definition -> int := (d: Definition) => d.pos

  // ----- a listing that mirrors a set of nodes -----

  /** es holds the event of each node of `seen` exactly once, and nothing else. */
  ghost predicate Mirrors(info: Info, es: seq<Event>, seen: set<Node>) {
    && (forall e :: e in es ==> e.expr in seen && e == EventOf(info, e.expr))
    && (forall n :: n in seen ==> EventOf(info, n) in es)
    && Distinct(es)
  }

  ghost predicate MirrorsDefinitions(info: Info, ds: seq<Definition>, seen: set<Node>) {
    && (forall n :: n in seen ==> Defines(info, n) && DefinitionOf(info, n) in ds)
    && (forall d :: d in ds ==> exists n :: n in seen && Defines(info, n) && d == DefinitionOf(info, n))
  }

  lemma SortMirrors(info: Info, es: seq<Event>, seen: set<Node>)
    requires Mirrors(info, es, seen)
    ensures Mirrors(info, Sort(EVENT_KEY, es), seen) && SortedBy(EVENT_KEY, Sort(EVENT_KEY, es))
  {
    SortIsSorted(EVENT_KEY, es);
    SameElements(es, Sort(EVENT_KEY, es));
    DistinctCounts(es);
    DistinctCounts(Sort(EVENT_KEY, es));
  }

  lemma SortMirrorsDefinitions(info: Info, ds: seq<Definition>, seen: set<Node>)
    requires MirrorsDefinitions(info, ds, seen)
    ensures MirrorsDefinitions(info, Sort(DEFINITION_KEY, ds), seen) &&
            SortedBy(DEFINITION_KEY, Sort(DEFINITION_KEY, ds))
  {
    SortIsSorted(DEFINITION_KEY, ds);
    SameElements(ds, Sort(DEFINITION_KEY, ds));
  }

  /** The second loop of results: copies of the events up to `end` whose objects
      are not excluded, and where it stopped. */
  method CopyFrom(info: Info, es: seq<Event>, eventStart: nat, end: int, excluded: set<Object>)
    returns (result: seq<Expr>, i: nat)
    requires eventStart <= |es| && forall e :: e in es ==> e == EventOf(info, e.expr)
    ensures eventStart <= i <= |es|
    ensures forall k :: eventStart <= k < i ==> es[k].pos <= end
    ensures i < |es| ==> end < es[i].pos
    ensures result == Answer(info, excluded, Exprs(es[eventStart..i]))
  {
    result := [];
    i := eventStart;
    while i < |es| && es[i].pos <= end
      invariant eventStart <= i <= |es|
      invariant forall k :: eventStart <= k < i ==> es[k].pos <= end
      invariant result == Answer(info, excluded, Exprs(es[eventStart..i]))
    {
      var event := es[i];
      assert event in es;
      AnswerNext(info, es, eventStart, i, excluded);
      if !(event.obj.Some? && event.obj.value in excluded) {
        result := result + CloneEvent(info, event.expr);
      }
      i := i + 1;
    }
  }

  lemma AnswerNext(info: Info, es: seq<Event>, from: nat, i: nat, excluded: set<Object>)
    requires from <= i < |es| && es[i] == EventOf(info, es[i].expr)
    ensures Answer(info, excluded, Exprs(es[from..i + 1])) ==
      Answer(info, excluded, Exprs(es[from..i])) +
      if es[i].obj.Some? && es[i].obj.value in excluded then [] else CloneEvent(info, es[i].expr)
  {
    AnswerAppend(info, excluded, Exprs(es[from..i]), [es[i].expr]);
    assert es[from..i + 1] == es[from..i] + [es[i]];
    ExprsSnoc(es[from..i], es[i]);
    EventIsAnswered(info, es[i].expr, excluded);
  }

  lemma EventIsAnswered(info: Info, n: Node, excluded: set<Object>)
    ensures Answer(info, excluded, [n]) ==
      var obj := EventOf(info, n).obj; if obj.Some? && obj.value in excluded then [] else CloneEvent(info, n)
  {
    NoAppend(AnswerOne(info, excluded, n));
  }

  lemma ExprsSnoc(es: seq<Event>, e: Event)
    ensures Exprs(es + [e]) == Exprs(es) + [e.expr]
  {
  }

  // ----- what a known range holds -----

  /** Every walked run is one of the tree, and its range is on record. */
  ghost predicate OnRecord(root: Node, covered: seq<PositionRange>, walked: seq<Query>) {
    && |covered| == |walked|
    && forall k :: 0 <= k < |walked| ==>
         Asks(root, walked[k]) && covered[k] == PositionRange(walked[k].Start(), walked[k].Stop())
  }

  ghost predicate SeenIn(info: Info, walked: seq<Query>, n: Node) {
    exists k :: 0 <= k < |walked| && n in RecordedList(info, walked[k].stmts)
  }

  ghost predicate DefinedIn(info: Info, walked: seq<Query>, n: Node) {
    exists k :: 0 <= k < |walked| && n in DefinedList(info, walked[k].stmts)
  }

  /** The range of q lies inside one the index has walked. */
  ghost predicate Covered(covered: seq<PositionRange>, start: int, end: int) {
    exists k :: 0 <= k < |covered| && covered[k].start <= start && covered[k].end >= end
  }

  /** What was seen inside a range that is covered is what q's statements hold. */
  lemma SeenInRange(info: Info, root: Node, covered: seq<PositionRange>, walked: seq<Query>, q: Query, n: Node)
    requires OnRecord(root, covered, walked) && Asks(root, q) && Covered(covered, q.Start(), q.Stop())
    ensures n in RecordedList(info, q.stmts) <==> SeenIn(info, walked, n) && q.InRange(n.Pos())
    ensures n in DefinedList(info, q.stmts) <==> DefinedIn(info, walked, n) && q.InRange(n.Pos())
  {
    RangeIsRun(info, root, q, n);
    if q.InRange(n.Pos()) {
      InsideIsSeen(info, root, covered, walked, q, n);
    }
    if SeenIn(info, walked, n) {
      SeenIsInTree(info, root, covered, walked, n);
    }
    if DefinedIn(info, walked, n) {
      DefinedIsInTree(info, root, covered, walked, n);
    }
  }

  /** A walk whose range holds q's has seen everything inside it. */
  lemma InsideIsSeen(info: Info, root: Node, covered: seq<PositionRange>, walked: seq<Query>, q: Query, n: Node)
    requires OnRecord(root, covered, walked) && q.stmts != [] && Covered(covered, q.Start(), q.Stop())
    requires q.InRange(n.Pos())
    ensures n in Recorded(info, root) ==> SeenIn(info, walked, n)
    ensures n in Defined(info, root) ==> DefinedIn(info, walked, n)
  {
    var k :| 0 <= k < |covered| && covered[k].start <= q.Start() && covered[k].end >= q.Stop();
    RangeIsRun(info, root, walked[k], n);
  }

  lemma SeenIsInTree(info: Info, root: Node, covered: seq<PositionRange>, walked: seq<Query>, n: Node)
    requires OnRecord(root, covered, walked) && SeenIn(info, walked, n)
    ensures n in Recorded(info, root)
  {
    var j :| 0 <= j < |walked| && n in RecordedList(info, walked[j].stmts);
    RangeIsRun(info, root, walked[j], n);
  }

  lemma DefinedIsInTree(info: Info, root: Node, covered: seq<PositionRange>, walked: seq<Query>, n: Node)
    requires OnRecord(root, covered, walked) && DefinedIn(info, walked, n)
    ensures n in Defined(info, root)
  {
    var j :| 0 <= j < |walked| && n in DefinedList(info, walked[j].stmts);
    RangeIsRun(info, root, walked[j], n);
  }

  lemma RecordGrows(root: Node, covered: seq<PositionRange>, walked: seq<Query>, q: Query)
    requires OnRecord(root, covered, walked) && Asks(root, q)
    ensures OnRecord(root, covered + [PositionRange(q.Start(), q.Stop())], walked + [q])
    ensures Covered(covered + [PositionRange(q.Start(), q.Stop())], q.Start(), q.Stop())
  {
    assert (covered + [PositionRange(q.Start(), q.Stop())])[|covered|].start == q.Start();
  }

  lemma SeenGrows(info: Info, walked: seq<Query>, q: Query)
    ensures forall n :: SeenIn(info, walked + [q], n) <==> SeenIn(info, walked, n) || n in RecordedList(info, q.stmts)
    ensures forall n :: DefinedIn(info, walked + [q], n) <==>
            DefinedIn(info, walked, n) || n in DefinedList(info, q.stmts)
  {
    var more := walked + [q];
    assert more[|walked|] == q && forall k :: 0 <= k < |walked| ==> more[k] == walked[k];
  }

  lemma RunIncreases(info: Info, root: Node, q: Query)
    requires WellFormed(info, root) && Asks(root, q)
    ensures Increasing(RecordedList(info, q.stmts))
  {
    PlugLeaves(info, q.place, q.stmts);
    IncreasingParts(LeavesList(Before(q.place)) + LeavesList(q.stmts), LeavesList(After(q.place)));
    IncreasingParts(LeavesList(Before(q.place)), LeavesList(q.stmts));
    RecordedListIncreases(info, q.stmts);
  }

  /** Sorted events that mirror exactly the nodes of a run list the run. */
  lemma SortedMirrorIsRun(info: Info, es: seq<Event>, run: seq<Node>)
    requires Increasing(run) && SortedBy(EVENT_KEY, es) && Distinct(es)
    requires forall e :: e in es ==> e.expr in run && e == EventOf(info, e.expr)
    requires forall n :: n in run ==> EventOf(info, n) in es
    ensures Exprs(es) == run
  {
    var exprs := Exprs(es);
    forall i | 0 <= i < |exprs| ensures exprs[i] in run {
      assert es[i] in es;
    }
    forall i | 0 <= i < |run| ensures run[i] in exprs {
      assert run[i] in run;
      var j :| 0 <= j < |es| && es[j] == EventOf(info, run[i]);
      assert exprs[j] == run[i];
    }
    forall i, j | 0 <= i < j < |exprs| ensures exprs[i].Pos() < exprs[j].Pos() {
      assert es[i] in es && es[j] in es && EVENT_KEY(es[i]) <= EVENT_KEY(es[j]);
      assert es[i] != es[j];
    }
    IncreasingIsUnique(exprs, run);
  }

  /** The events of a covered range, in order, are the recorded nodes of the walk. */
  lemma EventsInRange(info: Info, root: Node, covered: seq<PositionRange>, walked: seq<Query>,
                      es: seq<Event>, seen: set<Node>, q: Query, lo: nat, hi: nat)
    requires WellFormed(info, root) && OnRecord(root, covered, walked)
    requires Asks(root, q) && Covered(covered, q.Start(), q.Stop())
    requires Mirrors(info, es, seen) && SortedBy(EVENT_KEY, es) && forall n :: n in seen <==> SeenIn(info, walked, n)
    requires lo <= hi <= |es|
    requires forall k :: 0 <= k < lo ==> es[k].pos < q.Start()
    requires forall k :: lo <= k < hi ==> q.InRange(es[k].pos)
    requires forall k :: hi <= k < |es| ==> q.Stop() < es[k].pos
    ensures Exprs(es[lo..hi]) == RecordedList(info, q.stmts)
  {
    var slice, run := es[lo..hi], RecordedList(info, q.stmts);
    RunIncreases(info, root, q);
    forall e | e in slice ensures e.expr in run && e == EventOf(info, e.expr) {
      SeenInRange(info, root, covered, walked, q, e.expr);
    }
    forall n | n in run ensures EventOf(info, n) in slice {
      SeenInRange(info, root, covered, walked, q, n);
      InSlice(es, lo, hi, q, EventOf(info, n));
    }
    SliceIsSorted(es, lo, hi);
    SortedMirrorIsRun(info, slice, run);
  }

  lemma InSlice(es: seq<Event>, lo: nat, hi: nat, q: Query, e: Event)
    requires lo <= hi <= |es| && e in es && q.stmts != [] && q.InRange(e.pos)
    requires forall k :: 0 <= k < lo ==> es[k].pos < q.Start()
    requires forall k :: hi <= k < |es| ==> q.Stop() < es[k].pos
    ensures e in es[lo..hi]
  {
    var j :| 0 <= j < |es| && es[j] == e;
    assert es[lo..hi][j - lo] == es[j];
  }

  lemma SliceIsSorted(es: seq<Event>, lo: nat, hi: nat)
    requires lo <= hi <= |es| && SortedBy(EVENT_KEY, es) && Distinct(es)
    ensures SortedBy(EVENT_KEY, es[lo..hi]) && Distinct(es[lo..hi])
  {
  }

  /** The definitions of a covered range exclude what the walk would exclude. */
  lemma ExcludedInRange(info: Info, root: Node, covered: seq<PositionRange>, walked: seq<Query>,
                        ds: seq<Definition>, seen: set<Node>, q: Query, lo: nat, hi: nat, excluded: set<Object>)
    requires OnRecord(root, covered, walked) && Asks(root, q) && Covered(covered, q.Start(), q.Stop())
    requires MirrorsDefinitions(info, ds, seen) && forall n :: n in seen <==> DefinedIn(info, walked, n)
    requires lo <= hi <= |ds|
    requires forall k :: 0 <= k < lo ==> ds[k].pos < q.Start()
    requires forall k :: lo <= k < hi ==> q.InRange(ds[k].pos)
    requires forall k :: hi <= k < |ds| ==> q.Stop() < ds[k].pos
    requires excluded == set k | lo <= k < hi :: ds[k].obj
    ensures excluded == Objects(info, DefinedList(info, q.stmts))
  {
    var run := DefinedList(info, q.stmts);
    forall k | lo <= k < hi ensures ds[k].obj in Objects(info, run) {
      assert ds[k] in ds;
      var n :| n in seen && Defines(info, n) && ds[k] == DefinitionOf(info, n);
      SeenInRange(info, root, covered, walked, q, n);
    }
    forall o | o in Objects(info, run) ensures o in excluded {
      var n :| n in run && Defines(info, n) && VariableDef(info, n).value == o;
      SeenInRange(info, root, covered, walked, q, n);
      var k :| 0 <= k < |ds| && ds[k] == DefinitionOf(info, n);
      assert lo <= k < hi;
    }
  }

  /** The objects defined in a covered range. */
  method ObjectsOf(info: Info, ghost root: Node, ghost covered: seq<PositionRange>, ghost walked: seq<Query>,
                   ds: seq<Definition>, ghost seen: set<Node>, q: Query)
    returns (excluded: set<Object>)
    requires OnRecord(root, covered, walked) && Asks(root, q) && Covered(covered, q.Start(), q.Stop())
    requires MirrorsDefinitions(info, ds, seen) && SortedBy(DEFINITION_KEY, ds)
    requires forall n :: n in seen <==> DefinedIn(info, walked, n)
    ensures excluded == Objects(info, DefinedList(info, q.stmts))
  {
    var defStart := SearchFrom(DEFINITION_KEY, ds, q.Start());
    var i;
    excluded, i := CollectObjects(ds, defStart, q.Stop());
    DefinitionsFound(ds, q, defStart, i);
    ExcludedInRange(info, root, covered, walked, ds, seen, q, defStart, i, excluded);
  }

  method CollectObjects(ds: seq<Definition>, defStart: nat, end: int) returns (objects: set<Object>, i: nat)
    requires defStart <= |ds|
    ensures defStart <= i <= |ds| && objects == set k | defStart <= k < i :: ds[k].obj
    ensures forall k :: defStart <= k < i ==> ds[k].pos <= end
    ensures i < |ds| ==> end < ds[i].pos
  {
    objects, i := {}, defStart;
    while i < |ds| && ds[i].pos <= end
      invariant defStart <= i <= |ds|
      invariant forall k :: defStart <= k < i ==> ds[k].pos <= end
      invariant objects == set k | defStart <= k < i :: ds[k].obj
    {
      objects := objects + {ds[i].obj};
      i := i + 1;
    }
  }

  lemma DefinitionsFound(ds: seq<Definition>, q: Query, lo: nat, hi: nat)
    requires SortedBy(DEFINITION_KEY, ds) && lo <= hi <= |ds| && q.stmts != []
    requires forall k :: 0 <= k < lo ==> DEFINITION_KEY(ds[k]) < q.Start()
    requires forall k :: lo <= k < |ds| ==> q.Start() <= DEFINITION_KEY(ds[k])
    requires forall k :: lo <= k < hi ==> ds[k].pos <= q.Stop()
    requires hi < |ds| ==> q.Stop() < ds[hi].pos
    ensures forall k :: 0 <= k < lo ==> ds[k].pos < q.Start()
    ensures forall k :: lo <= k < hi ==> q.InRange(ds[k].pos)
    ensures forall k :: hi <= k < |ds| ==> q.Stop() < ds[k].pos
  {
    assert forall k :: 0 <= k < |ds| ==> DEFINITION_KEY(ds[k]) == ds[k].pos;
    assert forall k :: hi <= k < |ds| ==> DEFINITION_KEY(ds[hi]) <= DEFINITION_KEY(ds[k]);
  }

  /** Copies of the events of a covered range. */
  method CopyRange(info: Info, ghost root: Node, ghost covered: seq<PositionRange>, ghost walked: seq<Query>,
                   es: seq<Event>, ghost seen: set<Node>, q: Query, excluded: set<Object>)
    returns (result: seq<Expr>)
    requires WellFormed(info, root) && OnRecord(root, covered, walked)
    requires Asks(root, q) && Covered(covered, q.Start(), q.Stop())
    requires Mirrors(info, es, seen) && SortedBy(EVENT_KEY, es) && forall n :: n in seen <==> SeenIn(info, walked, n)
    ensures result == Answer(info, excluded, RecordedList(info, q.stmts))
  {
    var eventStart := SearchFrom(EVENT_KEY, es, q.Start());
    var eventEnd;
    result, eventEnd := CopyFrom(info, es, eventStart, q.Stop(), excluded);
    RangeFound(es, q, eventStart, eventEnd);
    EventsInRange(info, root, covered, walked, es, seen, q, eventStart, eventEnd);
  }

  /** The search and the loop stop at the two ends of the range. */
  lemma RangeFound(es: seq<Event>, q: Query, lo: nat, hi: nat)
    requires SortedBy(EVENT_KEY, es) && lo <= hi <= |es| && q.stmts != []
    requires forall k :: 0 <= k < lo ==> EVENT_KEY(es[k]) < q.Start()
    requires forall k :: lo <= k < |es| ==> q.Start() <= EVENT_KEY(es[k])
    requires forall k :: lo <= k < hi ==> es[k].pos <= q.Stop()
    requires hi < |es| ==> q.Stop() < es[hi].pos
    ensures forall k :: 0 <= k < lo ==> es[k].pos < q.Start()
    ensures forall k :: lo <= k < hi ==> q.InRange(es[k].pos)
    ensures forall k :: hi <= k < |es| ==> q.Stop() < es[k].pos
  {
    assert forall k :: 0 <= k < |es| ==> EVENT_KEY(es[k]) == es[k].pos;
    assert forall k :: hi <= k < |es| ==> EVENT_KEY(es[hi]) <= EVENT_KEY(es[k]);
  }

  /** One index serves one type-checked package; root stands for its files. */
  class Index {
    const info: Info
    ghost const root: Node
    var events: seq<Event>
    var defs: seq<Definition>
    var covered: seq<PositionRange>
    var seenNodes: set<Node>
    var seenDefs: set<Node>
    /** The queries that made the index walk, in order. */
    ghost var walked: seq<Query>

    /** The lists mirror the seen sets. */
    ghost predicate Consistent()
      reads this
    {
      Mirrors(info, events, seenNodes) && MirrorsDefinitions(info, defs, seenDefs)
    }

    ghost predicate Valid()
      reads this
    {
      && WellFormed(info, root)
      && Consistent()
      && SortedBy(EVENT_KEY, events) && SortedBy(DEFINITION_KEY, defs)
      && Complete()
    }

    /** The seen sets hold what the walked runs hold. */
    ghost predicate Complete()
      reads this
    {
      && OnRecord(root, covered, walked)
      && (forall n :: n in seenNodes <==> SeenIn(info, walked, n))
      && (forall n :: n in seenDefs <==> DefinedIn(info, walked, n))
    }

    constructor (info: Info, ghost root: Node)
      requires WellFormed(info, root)
      ensures Valid() && this.info == info && this.root == root
      ensures events == [] && covered == []
    {
      this.info := info;
      this.root := root;
      events, defs, covered, seenNodes, seenDefs, walked := [], [], [], {}, {}, [];
    }

    method Covers(start: int, end: int) returns (r: bool)
      ensures r <==> Covered(covered, start, end)
    {
      for i := 0 to |covered|
        invariant forall k :: 0 <= k < i ==> !(covered[k].start <= start && covered[k].end >= end)
      {
        if covered[i].start <= start && covered[i].end >= end {
          return true;
        }
      }
      return false;
    }

    method CollectSelector(selector: Node) returns (descend: bool)
      requires Consistent() && selector.Selector?
      modifies `events, `seenNodes
      ensures Consistent()
      ensures descend == !IsWhole(info, selector)
      ensures seenNodes == old(seenNodes) + (if descend then {} else {selector})
    {
      if !IsWhole(info, selector) {
        return true;
      }
      if selector in seenNodes {
        return false;
      }
      var obj: Option<Object> := None;
      if selector.Root().Some? && selector.Root().value in info.uses {
        obj := Some(info.uses[selector.Root().value]);
      }
      Append(Event(selector.Pos(), selector, obj));
      return false;
    }

    method Append(e: Event)
      requires Consistent() && e.expr !in seenNodes && e == EventOf(info, e.expr)
      modifies `events, `seenNodes
      ensures Consistent() && seenNodes == old(seenNodes) + {e.expr}
    {
      events := events + [e];
      seenNodes := seenNodes + {e.expr};
      assert events[|events| - 1] == e;
    }

    method CollectDefinition(ident: Node)
      requires Consistent() && ident.Ident?
      modifies `defs, `seenDefs
      ensures Consistent() && seenDefs == old(seenDefs) + DefinedIdent(info, ident)
    {
      if !Defines(info, ident) || ident in seenDefs {
        return;
      }
      defs := defs + [DefinitionOf(info, ident)];
      seenDefs := seenDefs + {ident};
    }

    method CollectIdentifier(ident: Node)
      requires Consistent() && ident.Ident?
      modifies `events, `seenNodes
      ensures Consistent() && seenNodes == old(seenNodes) + (set n | n in RecordedIdent(info, ident))
    {
      var obj := VariableUse(info, ident);
      if obj.None? || ident in seenNodes {
        return;
      }
      Append(Event(ident.Pos(), ident, obj));
    }

    method Collect(n: Node)
      requires Consistent()
      modifies `events, `defs, `seenNodes, `seenDefs
      ensures Consistent()
      ensures seenNodes == old(seenNodes) + (set r | r in Recorded(info, n))
      ensures seenDefs == old(seenDefs) + Defined(info, n)
      decreases n
    {
      match n
      case Ident(_, _) =>
        CollectDefinition(n);
        CollectIdentifier(n);
      case Selector(x, _, _) =>
        var descend := CollectSelector(n);
        if descend {
          Collect(x);
          CollectDefinition(n.Sel());
          CollectIdentifier(n.Sel());
        }
      case Other(_, _, kids) =>
        CollectAll(kids);
    }

    method CollectAll(ns: seq<Node>)
      requires Consistent()
      modifies `events, `defs, `seenNodes, `seenDefs
      ensures Consistent()
      ensures seenNodes == old(seenNodes) + (set r | r in RecordedList(info, ns))
      ensures seenDefs == old(seenDefs) + DefinedList(info, ns)
      decreases ns
    {
      for i := 0 to |ns|
        invariant Consistent()
        invariant seenNodes == old(seenNodes) + (set r | r in RecordedList(info, ns[..i]))
        invariant seenDefs == old(seenDefs) + DefinedList(info, ns[..i])
      {
        Collect(ns[i]);
        assert ns[..i + 1] == ns[..i] + [ns[i]];
        ListAppend(info, ns[..i], [ns[i]]);
      }
      assert ns[..|ns|] == ns;
    }

    method Ensure(q: Query)
      requires Valid() && Asks(root, q)
      modifies this
      ensures Valid() && Covered(covered, q.Start(), q.Stop())
      ensures old(Covered(covered, q.Start(), q.Stop())) ==>
        events == old(events) && defs == old(defs) && covered == old(covered)
    {
      var known := Covers(q.Start(), q.Stop());
      if !known {
        CollectRun(q);
        Reorder();
      }
    }

    method CollectRun(q: Query)
      requires Consistent() && Complete() && Asks(root, q)
      modifies this
      ensures Consistent() && Complete()
      ensures covered == old(covered) + [PositionRange(q.Start(), q.Stop())]
      ensures Covered(covered, q.Start(), q.Stop())
    {
      CollectAll(q.stmts);
      RecordGrows(root, covered, walked, q);
      SeenGrows(info, walked, q);
      covered := covered + [PositionRange(q.Start(), q.Stop())];
      walked := walked + [q];
    }

    method Reorder()
      requires Consistent()
      modifies `events, `defs
      ensures Consistent() && SortedBy(EVENT_KEY, events) && SortedBy(DEFINITION_KEY, defs)
      ensures multiset(events) == multiset(old(events)) && multiset(defs) == multiset(old(defs))
    {
      SortMirrors(info, events, seenNodes);
      SortMirrorsDefinitions(info, defs, seenDefs);
      events := Sort(EVENT_KEY, events);
      defs := Sort(DEFINITION_KEY, defs);
    }

    /** The first loop of results: the objects the range declares. */
    method Excluded(q: Query) returns (excluded: set<Object>)
      requires Valid() && Asks(root, q) && Covered(covered, q.Start(), q.Stop())
      ensures excluded == VariableDefinitionsList(info, q.stmts)
    {
      excluded := ObjectsOf(info, root, covered, walked, defs, seenDefs, q);
      PlugTyped(info, q.place, q.stmts);
      DefinitionsAreDefinedList(info, q.stmts);
    }

    method Results(q: Query) returns (result: seq<Expr>)
      requires Valid() && Asks(root, q) && Covered(covered, q.Start(), q.Stop())
      ensures result == Reference(info, q.stmts)
    {
      var excluded := Excluded(q);
      result := CopyRange(info, root, covered, walked, events, seenNodes, q, excluded);
      PlugTyped(info, q.place, q.stmts);
      WalkListIsAnswer(info, excluded, q.stmts);
    }

    /** A query answers what a direct walk over its statements would, whatever
        was asked before: what the statements mention, as they spell it. */
    method Query(q: Query) returns (result: seq<Expr>)
      requires Valid() && (q.stmts != [] ==> Asks(root, q))
      modifies this
      ensures Valid() && result == Reference(info, q.stmts) && IsAnswer(info, q.stmts, result)
    {
      ReferenceAnswers(info, root, q);
      if |q.stmts| == 0 {
        return [];
      }
      Ensure(q);
      result := Results(q);
    }
  }

  /** The reference walk answers the queries that can be asked. */
  lemma ReferenceAnswers(info: Info, root: Node, q: Query)
    requires WellFormed(info, root) && (q.stmts != [] ==> Asks(root, q))
    ensures IsAnswer(info, q.stmts, Reference(info, q.stmts))
  {
    if q.stmts != [] {
      PlugTyped(info, q.place, q.stmts);
      PlugLeaves(info, q.place, q.stmts);
      IncreasingParts(LeavesList(Before(q.place)) + LeavesList(q.stmts), LeavesList(After(q.place)));
      IncreasingParts(LeavesList(Before(q.place)), LeavesList(q.stmts));
    }
    ReferenceIsAnswer(info, q.stmts);
  }

  /** Any sequence of queries put to one index. */
  method AnswerAll(info: Info, ghost root: Node, queries: seq<Query>) returns (answers: seq<seq<Expr>>)
    requires WellFormed(info, root)
    requires forall k :: 0 <= k < |queries| ==> queries[k].stmts != [] ==> Asks(root, queries[k])
    ensures |answers| == |queries|
    ensures forall k :: 0 <= k < |queries| ==> answers[k] == Reference(info, queries[k].stmts)
    ensures forall k :: 0 <= k < |queries| ==> IsAnswer(info, queries[k].stmts, answers[k])
  {
    var index := new Index(info, root);
    answers := [];
    for i := 0 to |queries|
      invariant index.Valid() && index.info == info && index.root == root
      invariant fresh(index)
      invariant |answers| == i
      invariant forall k :: 0 <= k < i ==> answers[k] == Reference(info, queries[k].stmts)
    {
      var q := queries[i];
      var answer := index.Query(q);
      answers := answers + [answer];
    }
    forall k | 0 <= k < |queries| ensures IsAnswer(info, queries[k].stmts, answers[k]) {
      ReferenceAnswers(info, root, queries[k]);
    }
  }
}
