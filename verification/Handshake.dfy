/**
 The mutation walk of walk.go and its consumer, applyMutator in
 internal/engine/engine.go. The two goroutines share the syntax tree and one
 unbuffered channel that both send on and both receive from: a mutation is
 announced, acknowledged, undone, announced again as undone, and acknowledged.
*/
module Handshake {
  /** A pending edit of the shared tree and what undoes it. */
  datatype Mutation<!T> = Mutation(change: T -> T, reset: T -> T)

  /** The tree as parsed, the nodes ast.Walk visits, and the mutator, which reads
      the tree as it stands when the node is visited. */
  datatype Walk<!T> = Walk(original: T, nodes: nat, mutator: (nat, T) -> seq<Mutation<T>>)

  /** Where the walking goroutine stands, with the node it visits, the node's
      mutations and the index of the current one. */
  datatype Producer<!T> =
    | Visiting(node: nat)
    | Looping(node: nat, ms: seq<Mutation<T>>, i: nat)
    | SendingChange(node: nat, ms: seq<Mutation<T>>, i: nat)
    | AwaitingRecorded(node: nat, ms: seq<Mutation<T>>, i: nat)
    | Resetting(node: nat, ms: seq<Mutation<T>>, i: nat)
    | SendingReset(node: nat, ms: seq<Mutation<T>>, i: nat)
    | AwaitingAdvance(node: nat, ms: seq<Mutation<T>>, i: nat)
    | Closed

  datatype Consumer =
    | Receiving
    | Recording(node: nat)
    | SendingRecorded
    | ReceivingReset
    | SendingAdvance
    | Done

  /** An edit as recorded: the announced node and the tree at that moment. */
  datatype Edit<T> = Edit(node: nat, tree: T)

  datatype State<!T> = State(p: Producer<T>, c: Consumer, tree: T, recorded: seq<Edit<T>>, announced: nat)

  predicate Init<T(==)>(w: Walk<T>, s: State<T>) {
    s.p == Visiting(0) && s.c == Receiving && s.tree == w.original && s.recorded == [] && s.announced == 0
  }

  // ----- the steps -----

  predicate ProducerSends<T>(p: Producer<T>) {
    p.SendingChange? || p.SendingReset?
  }

  predicate ProducerReceives<T>(p: Producer<T>) {
    p.AwaitingRecorded? || p.AwaitingAdvance?
  }

  predicate ConsumerSends(c: Consumer) {
    c.SendingRecorded? || c.SendingAdvance?
  }

  predicate ConsumerReceives(c: Consumer) {
    c.Receiving? || c.ReceivingReset?
  }

  /** A step of the walk that does not touch the channel, or closes it. */
  ghost predicate ProducerStep<T>(w: Walk<T>, s: State<T>, s': State<T>) {
    match s.p
    case Visiting(node) =>
      if node == w.nodes then s' == s.(p := Closed)
      else s' == s.(p := Looping(node, w.mutator(node, s.tree), 0))
    case Looping(node, ms, i) =>
      if i >= |ms| then s' == s.(p := Visiting(node + 1))
      else s' == s.(p := SendingChange(node, ms, i), tree := ms[i].change(s.tree))
    case Resetting(node, ms, i) =>
      i < |ms| && s' == s.(p := SendingReset(node, ms, i), tree := ms[i].reset(s.tree))
    case _ => false
  }

  ghost predicate ConsumerStep<T>(s: State<T>, s': State<T>) {
    match s.c
    case Recording(node) => s' == s.(c := SendingRecorded, recorded := s.recorded + [Edit(node, s.tree)])
    case Receiving => s.p.Closed? && s' == s.(c := Done)
    case _ => false
  }

  /** A message from the walk to the consumer, whichever the two stand at. */
  ghost predicate MessageDown<T>(s: State<T>, s': State<T>) {
    && ProducerSends(s.p) && ConsumerReceives(s.c)
    && s'.tree == s.tree && s'.recorded == s.recorded
    && s'.announced == s.announced + (if s.p.SendingChange? then 1 else 0)
    && s'.p == (if s.p.SendingChange? then AwaitingRecorded(s.p.node, s.p.ms, s.p.i)
                else AwaitingAdvance(s.p.node, s.p.ms, s.p.i))
    && s'.c == (if s.c.Receiving? then Recording(s.p.node) else SendingAdvance)
  }

  /** A message from the consumer to the walk. */
  ghost predicate MessageUp<T>(s: State<T>, s': State<T>) {
    && ConsumerSends(s.c) && ProducerReceives(s.p)
    && s'.tree == s.tree && s'.recorded == s.recorded && s'.announced == s.announced
    && s'.p == (if s.p.AwaitingRecorded? then Resetting(s.p.node, s.p.ms, s.p.i)
                else Looping(s.p.node, s.p.ms, s.p.i + 1))
    && s'.c == (if s.c.SendingRecorded? then ReceivingReset else Receiving)
  }

  ghost predicate Next<T>(w: Walk<T>, s: State<T>, s': State<T>) {
    ProducerStep(w, s, s') || ConsumerStep(s, s') || MessageDown(s, s') || MessageUp(s, s')
  }

  /** A run of the two goroutines, under any interleaving. */
  ghost predicate IsRun<T>(w: Walk<T>, run: seq<State<T>>) {
    && run != []
    && Init(w, run[0])
    && forall k :: 0 <= k < |run| - 1 ==> Next(w, run[k], run[k + 1])
  }

  // ----- what holds throughout -----

  /** Every mutation of the original tree is undone by its reset. */
  ghost predicate Undoes<T>(w: Walk<T>) {
    forall node, i :: 0 <= node < w.nodes && 0 <= i < |w.mutator(node, w.original)| ==>
      var m := w.mutator(node, w.original)[i]; m.reset(m.change(w.original)) == w.original
  }

  /** The edits of the first i mutations of a node. */
  function EditsAt<T>(w: Walk<T>, node: nat, i: nat): seq<Edit<T>>
    requires i <= |w.mutator(node, w.original)|
  {
    seq(i, k requires 0 <= k < i => Edit(node, w.mutator(node, w.original)[k].change(w.original)))
  }

  /** The edits of the nodes before a node, in walk order. */
  function EditsBefore<T>(w: Walk<T>, node: nat): seq<Edit<T>> {
    if node == 0 then []
    else EditsBefore(w, node - 1) + EditsAt(w, node - 1, |w.mutator(node - 1, w.original)|)
  }

  function EditsUpTo<T>(w: Walk<T>, node: nat, i: nat): seq<Edit<T>>
    requires i <= |w.mutator(node, w.original)|
  {
    EditsBefore(w, node) + EditsAt(w, node, i)
  }

  ghost predicate Inv<T>(w: Walk<T>, s: State<T>) {
    match s.p
    case Visiting(node) =>
      && node <= w.nodes && s.tree == w.original && s.c == Receiving
      && s.recorded == EditsBefore(w, node) && s.announced == |s.recorded|
    case Looping(node, ms, i) =>
      && InNode(w, node, ms, i) && s.tree == w.original && s.c == Receiving
      && s.recorded == EditsUpTo(w, node, i) && s.announced == |s.recorded|
    case SendingChange(node, ms, i) =>
      && AtMutation(w, node, ms, i) && s.tree == ms[i].change(w.original) && s.c == Receiving
      && s.recorded == EditsUpTo(w, node, i) && s.announced == |s.recorded|
    case AwaitingRecorded(node, ms, i) =>
      && AtMutation(w, node, ms, i) && s.tree == ms[i].change(w.original)
      && (|| (s.c == Recording(node) && s.recorded == EditsUpTo(w, node, i) && s.announced == |s.recorded| + 1)
          || (s.c == SendingRecorded && s.recorded == EditsUpTo(w, node, i + 1) && s.announced == |s.recorded|))
    case Resetting(node, ms, i) =>
      && AtMutation(w, node, ms, i) && s.tree == ms[i].change(w.original) && s.c == ReceivingReset
      && s.recorded == EditsUpTo(w, node, i + 1) && s.announced == |s.recorded|
    case SendingReset(node, ms, i) =>
      && AtMutation(w, node, ms, i) && s.tree == w.original && s.c == ReceivingReset
      && s.recorded == EditsUpTo(w, node, i + 1) && s.announced == |s.recorded|
    case AwaitingAdvance(node, ms, i) =>
      && AtMutation(w, node, ms, i) && s.tree == w.original && s.c == SendingAdvance
      && s.recorded == EditsUpTo(w, node, i + 1) && s.announced == |s.recorded|
    case Closed =>
      && s.tree == w.original && (s.c == Receiving || s.c == Done)
      && s.recorded == EditsBefore(w, w.nodes) && s.announced == |s.recorded|
  }

  ghost predicate InNode<T>(w: Walk<T>, node: nat, ms: seq<Mutation<T>>, i: nat) {
    node < w.nodes && ms == w.mutator(node, w.original) && i <= |ms|
  }

  ghost predicate AtMutation<T>(w: Walk<T>, node: nat, ms: seq<Mutation<T>>, i: nat) {
    InNode(w, node, ms, i) && i < |ms|
  }

  lemma EditsGrow<T>(w: Walk<T>, node: nat, i: nat)
    requires i < |w.mutator(node, w.original)|
    ensures EditsUpTo(w, node, i + 1) == EditsUpTo(w, node, i) +
            [Edit(node, w.mutator(node, w.original)[i].change(w.original))]
  {
    assert EditsAt(w, node, i + 1) == EditsAt(w, node, i) +
        [Edit(node, w.mutator(node, w.original)[i].change(w.original))];
  }

  lemma StepKeepsInv<T>(w: Walk<T>, s: State<T>, s': State<T>)
    requires Undoes(w) && Inv(w, s) && Next(w, s, s')
    ensures Inv(w, s')
  {
    match s.p
    case Visiting(node) => assert EditsAt<T>(w, node, 0) == [];
    case Looping(node, ms, i) =>
    case AwaitingRecorded(node, ms, i) => EditsGrow(w, node, i);
    case _ =>
  }

  lemma {:induction false} RunKeepsInv<T>(w: Walk<T>, run: seq<State<T>>, k: nat)
    requires Undoes(w) && IsRun(w, run) && k < |run|
    ensures Inv(w, run[k])
  {
    if k > 0 {
      RunKeepsInv(w, run, k - 1);
      assert Next(w, run[k - 1], run[k - 1 + 1]);
      StepKeepsInv(w, run[k - 1], run[k]);
    }
  }

  // ----- what the consumer sees -----

  /** While the consumer records, exactly the announced mutation is applied and
      the walk is blocked: only the consumer can move. When it has received the
      second message the tree is the original. */
  lemma RecordingSeesOneMutation<T>(w: Walk<T>, run: seq<State<T>>, k: nat)
    requires Undoes(w) && IsRun(w, run) && k < |run|
    ensures run[k].c.Recording? ==>
      && run[k].p.AwaitingRecorded? && run[k].c.node == run[k].p.node < w.nodes
      && run[k].p.i < |w.mutator(run[k].p.node, w.original)|
      && run[k].tree == w.mutator(run[k].p.node, w.original)[run[k].p.i].change(w.original)
      && forall s' :: Next(w, run[k], s') ==> ConsumerStep(run[k], s')
    ensures run[k].c.SendingAdvance? ==> run[k].tree == w.original
  {
    RunKeepsInv(w, run, k);
  }

  /** The edit of some mutation of the original tree. */
  ghost predicate IsEdit<T>(w: Walk<T>, e: Edit<T>) {
    e.node < w.nodes && exists i :: 0 <= i < |w.mutator(e.node, w.original)| && EditOf(w, e.node, i) == e
  }

  function EditOf<T>(w: Walk<T>, node: nat, i: nat): Edit<T>
    requires i < |w.mutator(node, w.original)|
  {
    Edit(node, w.mutator(node, w.original)[i].change(w.original))
  }

  lemma EditsAtAreEdits<T>(w: Walk<T>, node: nat, i: nat, e: Edit<T>)
    requires node < w.nodes && i <= |w.mutator(node, w.original)| && e in EditsAt(w, node, i)
    ensures IsEdit(w, e)
  {
    var k :| 0 <= k < i && e == EditsAt(w, node, i)[k];
    assert EditOf(w, node, k) == e;
  }

  lemma {:induction false} EditsBeforeAreEdits<T>(w: Walk<T>, node: nat, e: Edit<T>)
    requires node <= w.nodes && e in EditsBefore(w, node)
    ensures IsEdit(w, e)
  {
    if e in EditsBefore(w, node - 1) {
      EditsBeforeAreEdits(w, node - 1, e);
    } else {
      EditsAtAreEdits(w, node - 1, |w.mutator(node - 1, w.original)|, e);
    }
  }

  /** Whatever has been recorded at any moment of a run is one mutation of the
      original tree, never a mixture of two. */
  lemma RecordedIsOneEdit<T>(w: Walk<T>, run: seq<State<T>>, k: nat, e: Edit<T>)
    requires Undoes(w) && IsRun(w, run) && k < |run| && e in run[k].recorded
    ensures IsEdit(w, e)
  {
    RunKeepsInv(w, run, k);
    var p := run[k].p;
    var node := if p.Visiting? then p.node else if p.Closed? then w.nodes else p.node;
    if e in EditsBefore(w, node) {
      EditsBeforeAreEdits(w, node, e);
    } else {
      EditsAtAreEdits(w, node, |run[k].recorded| - |EditsBefore(w, node)|, e);
    }
  }

  // ----- runs end, and end well -----

  ghost predicate Stuck<T(!new)>(w: Walk<T>, s: State<T>) {
    forall s' :: !Next(w, s, s')
  }

  predicate Finished<T>(s: State<T>) {
    s.p.Closed? && s.c.Done?
  }

  lemma NoDeadlock<T>(w: Walk<T>, run: seq<State<T>>) returns (s': State<T>)
    requires Undoes(w) && IsRun(w, run) && !Finished(run[|run| - 1])
    ensures Next(w, run[|run| - 1], s')
  {
    var s := run[|run| - 1];
    RunKeepsInv(w, run, |run| - 1);
    match s.p
    case Visiting(node) =>
      s' := if node == w.nodes then s.(p := Closed) else s.(p := Looping(node, w.mutator(node, s.tree), 0));
    case Looping(node, ms, i) =>
      s' := if i >= |ms| then s.(p := Visiting(node + 1))
            else s.(p := SendingChange(node, ms, i), tree := ms[i].change(s.tree));
    case SendingChange(node, ms, i) =>
      s' := s.(p := AwaitingRecorded(node, ms, i), c := Recording(node), announced := s.announced + 1);
      assert MessageDown(s, s');
    case AwaitingRecorded(node, ms, i) =>
      if s.c.Recording? {
        s' := s.(c := SendingRecorded, recorded := s.recorded + [Edit(node, s.tree)]);
      } else {
        s' := s.(p := Resetting(node, ms, i), c := ReceivingReset);
        assert MessageUp(s, s');
      }
    case Resetting(node, ms, i) =>
      s' := s.(p := SendingReset(node, ms, i), tree := ms[i].reset(s.tree));
    case SendingReset(node, ms, i) =>
      s' := s.(p := AwaitingAdvance(node, ms, i), c := SendingAdvance);
      assert MessageDown(s, s');
    case AwaitingAdvance(node, ms, i) =>
      s' := s.(p := Looping(node, ms, i + 1), c := Receiving);
      assert MessageUp(s, s');
    case Closed =>
      s' := s.(c := Done);
  }

  /** The steps left in the nodes from a node on. */
  function StepsFrom<T>(w: Walk<T>, node: nat): nat
    requires node <= w.nodes
    decreases w.nodes - node
  {
    if node == w.nodes then 2 else 2 + 8 * |w.mutator(node, w.original)| + StepsFrom(w, node + 1)
  }

  function StepsAfter<T>(w: Walk<T>, node: nat, i: nat): nat
    requires node < w.nodes && i <= |w.mutator(node, w.original)|
  {
    1 + 8 * (|w.mutator(node, w.original)| - i) + StepsFrom(w, node + 1)
  }

  /** A bound on the steps left. */
  ghost function Left<T>(w: Walk<T>, s: State<T>): nat
    requires Inv(w, s)
  {
    match s.p
    case Visiting(node) => StepsFrom(w, node)
    case Looping(node, _, i) => StepsAfter(w, node, i)
    case SendingChange(node, _, i) => StepsAfter(w, node, i + 1) + 7
    case AwaitingRecorded(node, _, i) => StepsAfter(w, node, i + 1) + if s.c.Recording? then 6 else 5
    case Resetting(node, _, i) => StepsAfter(w, node, i + 1) + 4
    case SendingReset(node, _, i) => StepsAfter(w, node, i + 1) + 3
    case AwaitingAdvance(node, _, i) => StepsAfter(w, node, i + 1) + 2
    case Closed => if s.c.Receiving? then 1 else 0
  }

  lemma StepUsesOne<T>(w: Walk<T>, s: State<T>, s': State<T>)
    requires Undoes(w) && Inv(w, s) && Next(w, s, s')
    ensures Inv(w, s') && Left(w, s') < Left(w, s)
  {
    StepKeepsInv(w, s, s');
    if ProducerStep(w, s, s') {
      ProducerUsesOne(w, s, s');
    } else if ConsumerStep(s, s') {
      ConsumerUsesOne(w, s, s');
    } else {
      MessageUsesOne(w, s, s');
    }
  }

  lemma ProducerUsesOne<T>(w: Walk<T>, s: State<T>, s': State<T>)
    requires Inv(w, s) && Inv(w, s') && ProducerStep(w, s, s')
    ensures Left(w, s') < Left(w, s)
  {
  }

  lemma ConsumerUsesOne<T>(w: Walk<T>, s: State<T>, s': State<T>)
    requires Inv(w, s) && Inv(w, s') && ConsumerStep(s, s')
    ensures Left(w, s') < Left(w, s)
  {
  }

  lemma MessageUsesOne<T>(w: Walk<T>, s: State<T>, s': State<T>)
    requires Inv(w, s) && Inv(w, s') && (MessageDown(s, s') || MessageUp(s, s'))
    ensures Left(w, s') < Left(w, s)
  {
  }

  lemma {:induction false} RunIsBounded<T>(w: Walk<T>, run: seq<State<T>>, k: nat)
    requires Undoes(w) && IsRun(w, run) && k < |run|
    ensures Inv(w, run[k]) && k + Left(w, run[k]) <= StepsFrom(w, 0)
  {
    RunKeepsInv(w, run, k);
    if k > 0 {
      RunIsBounded(w, run, k - 1);
      assert Next(w, run[k - 1], run[k - 1 + 1]);
      StepUsesOne(w, run[k - 1], run[k]);
    }
  }

  // ----- CountWalk -----

  /** The number of mutations at the nodes before a node. */
  function MutationsBefore<T>(w: Walk<T>, node: nat): nat {
    if node == 0 then 0 else MutationsBefore(w, node - 1) + |w.mutator(node - 1, w.original)|
  }

  method CountWalk<T>(w: Walk<T>) returns (count: nat)
    ensures count == MutationsBefore(w, w.nodes)
  {
    count := 0;
    for node := 0 to w.nodes
      invariant count == MutationsBefore(w, node)
    {
      count := count + |w.mutator(node, w.original)|;
    }
  }

  lemma {:induction false} EditsAreCounted<T>(w: Walk<T>, node: nat)
    ensures |EditsBefore(w, node)| == MutationsBefore(w, node)
  {
    if node > 0 {
      EditsAreCounted(w, node - 1);
    }
  }

  /** No run is longer than the mutations allow. One that cannot go on has closed
      the channel and stopped the consumer, has announced as many mutations as
      CountWalk counts, has recorded the edit of each mutation of the original
      tree in walk order, and leaves the tree as it was. */
  lemma RunsComplete<T(!new)>(w: Walk<T>, run: seq<State<T>>)
    requires Undoes(w) && IsRun(w, run)
    ensures |run| <= StepsFrom(w, 0) + 1
    ensures Stuck(w, run[|run| - 1]) ==>
      var last := run[|run| - 1];
      && Finished(last)
      && last.tree == w.original
      && last.recorded == EditsBefore(w, w.nodes)
      && last.announced == MutationsBefore(w, w.nodes)
  {
    RunIsBounded(w, run, |run| - 1);
    EditsAreCounted(w, w.nodes);
    if !Finished(run[|run| - 1]) {
      var s' := NoDeadlock(w, run);
    }
  }
}
