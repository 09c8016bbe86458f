/**
 profileTests and the merge loop of internal/coverage/coverage.go: the caller
 queues every job, closes the channel and receives one result per job, while
 workers take jobs and report. Both channels hold as many items as there are
 jobs. A channel hands out its items in any order here, which covers its own.
*/
module PerTestPool {
  import opened PerTestMerge
  import opened Picking

  /** The result of each job's test run, and the number of workers. */
  datatype Setup = Setup(results: seq<Result>, workers: nat)

  /** Where a job is; `lost` once a cancelled worker reports it without a run. */
  datatype Phase = Unsent | Queued | Held | Reported(lost: bool) | Received(lost: bool)

  datatype State = State(phases: seq<Phase>, sent: nat, closed: bool, received: seq<nat>, cancelled: bool)

  predicate Init(u: Setup, s: State) {
    s == State(seq(|u.results|, _ => Unsent), 0, false, [], false)
  }

  function HeldCount(ps: seq<Phase>): nat {
    if ps == [] then 0 else HeldCount(ps[..|ps| - 1]) + if ps[|ps| - 1].Held? then 1 else 0
  }

  /** What the merge has received, in order. */
  function Results(u: Setup, s: State): seq<Result>
    requires |s.phases| == |u.results|
    requires forall k :: 0 <= k < |s.received| ==> s.received[k] < |u.results| && s.phases[s.received[k]].Received?
  {
    seq(|s.received|, k requires 0 <= k < |s.received| =>
      if s.phases[s.received[k]].lost then Lost else u.results[s.received[k]])
  }

  ghost predicate Send(u: Setup, s: State, s': State) {
    && s.sent < |u.results| && |s.phases| == |u.results| && !s.closed
    && s' == s.(sent := s.sent + 1, phases := s.phases[s.sent := Queued])
  }

  ghost predicate Close(u: Setup, s: State, s': State) {
    s.sent == |u.results| && !s.closed && s' == s.(closed := true)
  }

  ghost predicate Take(u: Setup, s: State, s': State, j: nat) {
    && j < |s.phases| && s.phases[j].Queued? && HeldCount(s.phases) < u.workers
    && s' == s.(phases := s.phases[j := Held])
  }

  /** A worker that finds the run cancelled reports its job as lost; one that had
      started it may still report the profile. */
  ghost predicate Report(s: State, s': State, j: nat, lost: bool) {
    && j < |s.phases| && s.phases[j].Held? && (lost ==> s.cancelled)
    && s' == s.(phases := s.phases[j := Reported(lost)])
  }

  ghost predicate Receive(u: Setup, s: State, s': State, j: nat) {
    && s.closed && |s.received| < |u.results|
    && j < |s.phases| && s.phases[j].Reported?
    && s' == s.(phases := s.phases[j := Received(s.phases[j].lost)], received := s.received + [j])
  }

  ghost predicate Cancel(s: State, s': State) {
    !s.cancelled && s' == s.(cancelled := true)
  }

  ghost predicate JobStep(u: Setup, s: State, s': State, j: nat) {
    Take(u, s, s', j) || (exists lost :: Report(s, s', j, lost)) || Receive(u, s, s', j)
  }

  ghost predicate Works(u: Setup, s: State, s': State) {
    Send(u, s, s') || Close(u, s, s') || exists j: nat :: JobStep(u, s, s', j)
  }

  ghost predicate Next(u: Setup, s: State, s': State) {
    Works(u, s, s') || Cancel(s, s')
  }

  ghost predicate IsRun(u: Setup, run: seq<State>) {
    && run != [] && Init(u, run[0])
    && forall k :: 0 <= k < |run| - 1 ==> Next(u, run[k], run[k + 1])
  }

  ghost predicate Inv(u: Setup, s: State) {
    && |s.phases| == |u.results| && s.sent <= |u.results|
    && (forall j :: 0 <= j < |s.phases| ==> (s.phases[j].Unsent? <==> s.sent <= j))
    && (s.closed ==> s.sent == |u.results|)
    && (forall k :: 0 <= k < |s.received| ==> s.received[k] < |s.phases| && s.phases[s.received[k]].Received?)
    && (forall j :: 0 <= j < |s.phases| && s.phases[j].Received? ==> j in s.received)
    && Picks(s.received, |u.results|)
    && (!s.cancelled ==> forall j :: 0 <= j < |s.phases| && (s.phases[j].Reported? || s.phases[j].Received?) ==>
        !s.phases[j].lost)
  }

  lemma StepKeepsInv(u: Setup, s: State, s': State)
    requires Inv(u, s) && Next(u, s, s')
    ensures Inv(u, s')
  {
    if j: nat :| Receive(u, s, s', j) {
      ReceiveKeepsInv(u, s, s', j);
    } else if j: nat :| JobStep(u, s, s', j) {
      WorkerKeepsInv(u, s, s', j);
    }
  }

  lemma WorkerKeepsInv(u: Setup, s: State, s': State, j: nat)
    requires Inv(u, s) && (Take(u, s, s', j) || exists lost :: Report(s, s', j, lost))
    ensures Inv(u, s')
  {
  }

  lemma ReceiveKeepsInv(u: Setup, s: State, s': State, j: nat)
    requires Inv(u, s) && Receive(u, s, s', j)
    ensures Inv(u, s')
  {
    assert s'.received[|s.received|] == j;
    assert forall k :: 0 <= k < |s.received| ==> s'.received[k] == s.received[k];
    assert j !in s.received;
  }

  lemma {:induction false} RunKeepsInv(u: Setup, run: seq<State>, k: nat)
    requires IsRun(u, run) && k < |run|
    ensures Inv(u, run[k])
  {
    if k > 0 {
      RunKeepsInv(u, run, k - 1);
      assert Next(u, run[k - 1], run[k - 1 + 1]);
      StepKeepsInv(u, run[k - 1], run[k]);
    }
  }

  lemma {:induction false} NoneHeld(ps: seq<Phase>)
    requires forall j :: 0 <= j < |ps| ==> !ps[j].Held?
    ensures HeldCount(ps) == 0
  {
    if ps != [] {
      NoneHeld(ps[..|ps| - 1]);
    }
  }

  predicate Finished(u: Setup, s: State) {
    s.closed && |s.received| == |u.results|
  }

  /** Neither the workers nor the merge wait forever: until every result has been
      received some step is possible. */
  lemma NoDeadlock(u: Setup, run: seq<State>) returns (s': State)
    requires IsRun(u, run) && u.workers > 0 && !Finished(u, run[|run| - 1])
    ensures Works(u, run[|run| - 1], s')
  {
    var s := run[|run| - 1];
    RunKeepsInv(u, run, |run| - 1);
    if s.sent < |u.results| {
      s' := s.(sent := s.sent + 1, phases := s.phases[s.sent := Queued]);
      assert Send(u, s, s');
    } else if !s.closed {
      s' := s.(closed := true);
      assert Close(u, s, s');
    } else if j :| 0 <= j < |s.phases| && s.phases[j].Held? {
      s' := s.(phases := s.phases[j := Reported(false)]);
      assert Report(s, s', j, false) && JobStep(u, s, s', j);
    } else if j :| 0 <= j < |s.phases| && s.phases[j].Queued? {
      NoneHeld(s.phases);
      s' := s.(phases := s.phases[j := Held]);
      assert JobStep(u, s, s', j);
    } else {
      s' := LastReceive(u, s);
    }
  }

  lemma LastReceive(u: Setup, s: State) returns (s': State)
    requires Inv(u, s) && s.closed && |s.received| != |u.results|
    requires forall j :: 0 <= j < |s.phases| ==> s.phases[j].Reported? || s.phases[j].Received?
    ensures Works(u, s, s')
  {
    var j := LeftOut(s.received, |u.results|);
    AtMostAll(s.received, |u.results|);
    s' := s.(phases := s.phases[j := Received(s.phases[j].lost)], received := s.received + [j]);
    assert JobStep(u, s, s', j);
  }

  function Rank(p: Phase): nat {
    match p
    case Unsent => 4
    case Queued => 3
    case Held => 2
    case Reported(_) => 1
    case Received(_) => 0
  }

  function Ranks(ps: seq<Phase>): nat {
    if ps == [] then 0 else Rank(ps[0]) + Ranks(ps[1..])
  }

  lemma {:induction false} RanksUpdate(ps: seq<Phase>, j: nat, p: Phase)
    requires j < |ps|
    ensures Ranks(ps[j := p]) + Rank(ps[j]) == Ranks(ps) + Rank(p)
  {
    if j == 0 {
      assert ps[0 := p][1..] == ps[1..] && ps[0 := p][0] == p;
    } else {
      RanksUpdate(ps[1..], j - 1, p);
      assert ps[j := p][0] == ps[0] && ps[j := p][1..] == ps[1..][j - 1 := p];
    }
  }

  function Left(s: State): nat {
    Ranks(s.phases) + (if s.closed then 0 else 1) + if s.cancelled then 0 else 1
  }

  lemma StepUsesOne(u: Setup, s: State, s': State)
    requires Inv(u, s) && Next(u, s, s')
    ensures Left(s') < Left(s)
  {
    if j: nat :| JobStep(u, s, s', j) {
      RanksUpdate(s.phases, j, s'.phases[j]);
    } else if Send(u, s, s') {
      RanksUpdate(s.phases, s.sent, Queued);
    }
  }

  lemma {:induction false} RunIsBounded(u: Setup, run: seq<State>, k: nat)
    requires IsRun(u, run) && k < |run|
    ensures k + Left(run[k]) <= Left(run[0])
  {
    if k > 0 {
      RunIsBounded(u, run, k - 1);
      RunKeepsInv(u, run, k - 1);
      assert Next(u, run[k - 1], run[k - 1 + 1]);
      StepUsesOne(u, run[k - 1], run[k]);
    }
  }

  lemma {:induction false} InitialRanks(ps: seq<Phase>)
    requires forall j :: 0 <= j < |ps| ==> ps[j].Unsent?
    ensures Ranks(ps) == 4 * |ps|
  {
    if ps != [] {
      InitialRanks(ps[1..]);
    }
  }

  ghost predicate Stuck(u: Setup, s: State) {
    forall s' :: !Works(u, s, s')
  }

  /** Every run is finite; one that cannot go on has received exactly one result
      for each job. Without a cancellation those are the results of the jobs, in
      some order. */
  lemma MergeReceivesEachResultOnce(u: Setup, run: seq<State>)
    requires IsRun(u, run) && u.workers > 0
    ensures |run| <= 4 * |u.results| + 3
    ensures Inv(u, run[|run| - 1])
    ensures Stuck(u, run[|run| - 1]) ==>
      var last := run[|run| - 1];
      && |last.received| == |u.results|
      && (!last.cancelled ==> multiset(Results(u, last)) == multiset(u.results))
  {
    var last := run[|run| - 1];
    RunIsBounded(u, run, |run| - 1);
    InitialRanks(run[0].phases);
    RunKeepsInv(u, run, |run| - 1);
    if Stuck(u, last) {
      if !Finished(u, last) {
        var s' := NoDeadlock(u, run);
      }
      if !last.cancelled {
        Permuted(last.received, u.results, Results(u, last));
      }
    }
  }

  /** The merged map does not depend on the number of workers, their schedule or
      the order of results: two uncancelled runs over the same jobs that merge at
      all merge to the same map, and neither merges if a profile was lost. */
  lemma ProfileIsScheduleIndependent(u: Setup, u': Setup, run: seq<State>, run': seq<State>, data: Profiles,
                                     data': Profiles)
    requires u.results == u'.results && u.workers > 0 && u'.workers > 0
    requires IsRun(u, run) && Stuck(u, run[|run| - 1]) && !run[|run| - 1].cancelled
    requires IsRun(u', run') && Stuck(u', run'[|run'| - 1]) && !run'[|run'| - 1].cancelled
    requires Inv(u, run[|run| - 1]) && Inv(u', run'[|run'| - 1])
    requires IsMerged(Results(u, run[|run| - 1]), data) && IsMerged(Results(u', run'[|run'| - 1]), data')
    ensures data == data' && IsMerged(u.results, data)
    ensures AnyLost(Results(u, run[|run| - 1])) <==> AnyLost(u.results)
  {
    MergeReceivesEachResultOnce(u, run);
    MergeReceivesEachResultOnce(u', run');
    MergeIgnoresOrder(Results(u, run[|run| - 1]), Results(u', run'[|run'| - 1]), data, data');
    MergedForPermutation(Results(u, run[|run| - 1]), u.results, data);
  }
}
