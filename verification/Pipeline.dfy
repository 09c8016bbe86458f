/**
 Discovery, the job channel and the worker pool of internal/engine/engine.go:
 one goroutine admits mutants and queues them on a bounded channel, any number
 of workers take and record them, and the run can be cancelled at any moment.
*/
module Pipeline {
  import opened Sequences
  import opened Wrappers
  import opened Scope
  import Results

  /** What a run works through: every mutation in walk order, the scope rules, and
      the number of workers; the channel holds two jobs for each. */
  datatype Setup = Setup(all: seq<Candidate>, rules: Rules, workers: nat)

  datatype Discoverer = Discovering | Queuing(job: Candidate) | Waiting | Stopped
  datatype Worker = Idle | Taken(job: Candidate) | Running(job: Candidate) | Exited
  datatype Record = Record(job: Candidate, outcome: Results.Outcome)

  datatype State = State(
    d: Discoverer,
    next: nat,
    seen: set<string>,
    jobs: seq<Candidate>,
    closed: bool,
    workers: seq<Worker>,
    recorded: seq<Record>,
    cancelled: bool,
    admitted: seq<Candidate>,
    dropped: seq<Candidate>,
    failed: bool)

  predicate Init(u: Setup, s: State) {
    s == State(Discovering, 0, {}, [], false, seq(u.workers, _ => Idle), [], false, [], [], false)
  }

  // ----- the steps -----

  /** recordOneMutation, up to the send: the next mutation is recorded as an error,
      rejected, or admitted. */
  ghost predicate Discover(u: Setup, s: State, s': State) {
    && s.d.Discovering? && s.next < |u.all| && !s.failed
    && var c := u.all[s.next];
       if !c.captured then s' == s.(next := s.next + 1, recorded := s.recorded + [Record(c, Results.Errored)])
       else if !Judge(u.rules, s.seen, c).Admitted? then s' == s.(next := s.next + 1)
       else s' == s.(next := s.next + 1, d := Queuing(c), seen := s.seen + {c.checksum}, admitted := s.admitted + [c])
  }

  /** The two arms of queueMutation's select. */
  ghost predicate Send(u: Setup, s: State, s': State) {
    && s.d.Queuing? && |s.jobs| < 2 * u.workers
    && s' == s.(d := Discovering, jobs := s.jobs + [s.d.job])
  }

  ghost predicate Abandon(s: State, s': State) {
    && s.d.Queuing? && s.cancelled
    && s' == s.(d := Discovering, dropped := s.dropped + [s.d.job])
  }

  /** stopExecution, once discovery is through, has noticed the cancellation, or has
      met a file or a package it cannot process. */
  ghost predicate Close(u: Setup, s: State, s': State) {
    && s.d.Discovering? && (s.next == |u.all| || s.cancelled || s.failed)
    && s' == s.(d := Waiting, closed := true)
  }

  ghost predicate Finish(s: State, s': State) {
    && s.d.Waiting? && (forall i :: 0 <= i < |s.workers| ==> s.workers[i].Exited?)
    && s' == s.(d := Stopped)
  }

  ghost predicate Take(s: State, s': State, i: nat) {
    && i < |s.workers| && s.workers[i].Idle? && s.jobs != []
    && s' == s.(jobs := s.jobs[1..], workers := s.workers[i := Taken(s.jobs[0])])
  }

  /** A worker looks at the job's context before it runs the job. */
  ghost predicate Check(s: State, s': State, i: nat) {
    && i < |s.workers| && s.workers[i].Taken?
    && if s.cancelled then s' == s.(workers := s.workers[i := Idle], dropped := s.dropped + [s.workers[i].job])
       else s' == s.(workers := s.workers[i := Running(s.workers[i].job)])
  }

  /** runExecJob records the mutant once, whatever the outcome. */
  ghost predicate Run(s: State, s': State, i: nat, o: Results.Outcome) {
    && i < |s.workers| && s.workers[i].Running?
    && s' == s.(workers := s.workers[i := Idle], recorded := s.recorded + [Record(s.workers[i].job, o)])
  }

  ghost predicate Exit(s: State, s': State, i: nat) {
    && i < |s.workers| && s.workers[i].Idle? && s.closed && s.jobs == []
    && s' == s.(workers := s.workers[i := Exited])
  }

  ghost predicate Cancel(s: State, s': State) {
    !s.cancelled && s' == s.(cancelled := true)
  }

  /** mutateAll meets an error between two mutations and goes no further. */
  ghost predicate Fail(s: State, s': State) {
    s.d.Discovering? && !s.failed && s' == s.(failed := true)
  }

  ghost predicate WorkerStep(s: State, s': State, i: nat) {
    Take(s, s', i) || Check(s, s', i) || (exists o :: Run(s, s', i, o)) || Exit(s, s', i)
  }

  /** Any step but the outside world's. */
  ghost predicate Works(u: Setup, s: State, s': State) {
    || Discover(u, s, s') || Send(u, s, s') || Abandon(s, s') || Close(u, s, s') || Finish(s, s')
    || exists i: nat :: WorkerStep(s, s', i)
  }

  ghost predicate Next(u: Setup, s: State, s': State) {
    Works(u, s, s') || Cancel(s, s') || Fail(s, s')
  }

  ghost predicate IsRun(u: Setup, run: seq<State>) {
    && run != [] && Init(u, run[0])
    && forall k :: 0 <= k < |run| - 1 ==> Next(u, run[k], run[k + 1])
  }

  // ----- where each mutant is -----

  function Holds(w: Worker, c: Candidate): nat {
    if (w.Taken? || w.Running?) && w.job == c then 1 else 0
  }

  function Held(ws: seq<Worker>, c: Candidate): nat {
    if ws == [] then 0 else Holds(ws[0], c) + Held(ws[1..], c)
  }

  lemma {:induction false} HeldUpdate(ws: seq<Worker>, i: nat, w: Worker, c: Candidate)
    requires i < |ws|
    ensures Held(ws[i := w], c) + Holds(ws[i], c) == Held(ws, c) + Holds(w, c)
  {
    if i == 0 {
      assert ws[0 := w][1..] == ws[1..] && ws[0 := w][0] == w;
    } else {
      HeldUpdate(ws[1..], i - 1, w, c);
      assert ws[i := w][0] == ws[0] && ws[i := w][1..] == ws[1..][i - 1 := w];
    }
  }

  lemma {:induction false} IdleHoldNothing(ws: seq<Worker>, c: Candidate)
    requires forall i :: 0 <= i < |ws| ==> ws[i].Idle? || ws[i].Exited?
    ensures Held(ws, c) == 0
  {
    if ws != [] {
      IdleHoldNothing(ws[1..], c);
    }
  }

  /** How often a candidate is in a list. */
  function Times(cs: seq<Candidate>, c: Candidate): nat {
    if cs == [] then 0 else Times(cs[..|cs| - 1], c) + if cs[|cs| - 1] == c then 1 else 0
  }

  lemma TimesSnoc(cs: seq<Candidate>, x: Candidate, c: Candidate)
    ensures Times(cs + [x], c) == Times(cs, c) + if x == c then 1 else 0
  {
    assert (cs + [x])[..|cs|] == cs;
  }

  lemma {:induction false} TimesTail(cs: seq<Candidate>, c: Candidate)
    requires cs != []
    ensures Times(cs, c) == (if cs[0] == c then 1 else 0) + Times(cs[1..], c)
  {
    if |cs| > 1 {
      TimesTail(cs[..|cs| - 1], c);
      assert cs[..|cs| - 1][1..] == cs[1..][..|cs| - 2];
    }
  }

  function TimesRecorded(rs: seq<Record>, c: Candidate): nat {
    if rs == [] then 0 else TimesRecorded(rs[..|rs| - 1], c) + if rs[|rs| - 1].job == c then 1 else 0
  }

  lemma RecordedSnoc(rs: seq<Record>, r: Record, c: Candidate)
    ensures TimesRecorded(rs + [r], c) == TimesRecorded(rs, c) + if r.job == c then 1 else 0
  {
    assert (rs + [r])[..|rs|] == rs;
  }

  function Offered(d: Discoverer, c: Candidate): nat {
    if d.Queuing? && d.job == c then 1 else 0
  }

  /** In how many places a candidate is. */
  function Places(s: State, c: Candidate): nat {
    TimesRecorded(s.recorded, c) + Offered(s.d, c) + Times(s.jobs, c) + Held(s.workers, c) + Times(s.dropped, c)
  }

  /** How often discovery has turned a candidate into a job or an error among the
      first n mutations. */
  function TimesFound(u: Setup, n: nat, c: Candidate): nat
    requires n <= |u.all|
  {
    Times(AdmittedOf(u.rules, u.all[..n]), c) + Times(FailedOf(u.all[..n]), c)
  }

  /** Discovery has got as far as a sequential pass would. */
  ghost predicate InStep(u: Setup, s: State) {
    && s.next <= |u.all|
    && s.admitted == AdmittedOf(u.rules, u.all[..s.next])
    && s.seen == Checksums(s.admitted)
  }

  /** Mutants are dropped, and discovery is cut short, only by a cancellation; the
      channel is closed once, after the last send. */
  ghost predicate Orderly(u: Setup, s: State) {
    && |s.workers| == u.workers && |s.jobs| <= 2 * u.workers
    && (!s.cancelled ==> s.dropped == [])
    && (s.closed ==> s.next == |u.all| || s.cancelled || s.failed)
    && (s.closed <==> s.d.Waiting? || s.d.Stopped?)
    && (forall i :: 0 <= i < |s.workers| && s.workers[i].Exited? ==> s.closed && s.jobs == [])
    && (s.d.Stopped? ==> forall i :: 0 <= i < |s.workers| ==> s.workers[i].Exited?)
  }

  /** Each mutant found is in exactly one place. */
  ghost predicate Accounted(u: Setup, s: State)
    requires s.next <= |u.all|
  {
    forall c :: Places(s, c) == TimesFound(u, s.next, c)
  }

  ghost predicate Inv(u: Setup, s: State) {
    InStep(u, s) && Orderly(u, s) && Accounted(u, s)
  }

  lemma InitHoldsInv(u: Setup, s: State)
    requires Init(u, s)
    ensures Inv(u, s)
  {
    forall c {
      IdleHoldNothing(s.workers, c);
    }
    assert u.all[..0] == [];
  }

  lemma ChecksumsNext(cs: seq<Candidate>, c: Candidate)
    ensures Checksums(cs + [c]) == Checksums(cs) + {c.checksum}
  {
    assert (cs + [c])[|cs|] == c;
    forall k | k in Checksums(cs) ensures k in Checksums(cs + [c]) {
      var i :| 0 <= i < |cs| && cs[i].checksum == k;
      assert (cs + [c])[i].checksum == k;
    }
  }

  lemma PassSteps(u: Setup, n: nat)
    requires n < |u.all|
    ensures var before, c := AdmittedOf(u.rules, u.all[..n]), u.all[n];
      && AdmittedOf(u.rules, u.all[..n + 1]) ==
           (if c.captured && Judge(u.rules, Checksums(before), c).Admitted? then before + [c] else before)
      && FailedOf(u.all[..n + 1]) == FailedOf(u.all[..n]) + (if c.captured then [] else [c])
  {
    assert u.all[..n + 1][..n] == u.all[..n];
  }

  lemma DiscoverPlaces(u: Setup, s: State, s': State, k: Candidate)
    requires InStep(u, s) && Discover(u, s, s') && Places(s, k) == TimesFound(u, s.next, k)
    ensures Places(s', k) == TimesFound(u, s'.next, k)
  {
    var c := u.all[s.next];
    FoundNext(u, s.next, k);
    if !c.captured {
      RecordedSnoc(s.recorded, Record(c, Results.Errored), k);
    }
  }

  lemma FoundNext(u: Setup, n: nat, k: Candidate)
    requires n < |u.all|
    ensures var c := u.all[n];
      TimesFound(u, n + 1, k) == TimesFound(u, n, k)
        + if c == k && (!c.captured || Judge(u.rules, Checksums(AdmittedOf(u.rules, u.all[..n])), c).Admitted?)
          then 1 else 0
  {
    var admitted, failed, c := AdmittedOf(u.rules, u.all[..n]), FailedOf(u.all[..n]), u.all[n];
    PassSteps(u, n);
    if c.captured {
      NoAppend(failed);
      TimesSnoc(admitted, c, k);
    } else {
      TimesSnoc(failed, c, k);
    }
  }

  lemma DiscoverKeepsInv(u: Setup, s: State, s': State)
    requires Inv(u, s) && Discover(u, s, s')
    ensures Inv(u, s')
  {
    PassSteps(u, s.next);
    ChecksumsNext(s.admitted, u.all[s.next]);
    forall k ensures Places(s', k) == TimesFound(u, s'.next, k) {
      assert Places(s, k) == TimesFound(u, s.next, k);
      DiscoverPlaces(u, s, s', k);
    }
  }

  lemma DiscovererKeepsInv(u: Setup, s: State, s': State)
    requires Inv(u, s) && (Send(u, s, s') || Abandon(s, s') || Close(u, s, s') || Finish(s, s'))
    ensures Inv(u, s')
  {
    DiscovererKeepsOrder(u, s, s');
    forall k ensures Places(s', k) == TimesFound(u, s'.next, k) {
      DiscovererPlaces(u, s, s', k);
      assert Places(s, k) == TimesFound(u, s.next, k);
    }
  }

  lemma DiscovererKeepsOrder(u: Setup, s: State, s': State)
    requires InStep(u, s) && Orderly(u, s)
    requires Send(u, s, s') || Abandon(s, s') || Close(u, s, s') || Finish(s, s')
    ensures InStep(u, s') && Orderly(u, s') && s'.next == s.next
  {
  }

  lemma DiscovererPlaces(u: Setup, s: State, s': State, k: Candidate)
    requires Send(u, s, s') || Abandon(s, s') || Close(u, s, s') || Finish(s, s')
    ensures Places(s', k) == Places(s, k)
  {
    if s.d.Queuing? {
      TimesSnoc(s.jobs, s.d.job, k);
      TimesSnoc(s.dropped, s.d.job, k);
    }
  }

  lemma WorkerPlaces(s: State, s': State, i: nat, k: Candidate)
    requires WorkerStep(s, s', i)
    ensures Places(s', k) == Places(s, k)
  {
    if Take(s, s', i) {
      TakePlaces(s, s', i, k);
    } else if Check(s, s', i) {
      CheckPlaces(s, s', i, k);
    } else if o :| Run(s, s', i, o) {
      RunPlaces(s, s', i, o, k);
    } else {
      HeldUpdate(s.workers, i, s'.workers[i], k);
    }
  }

  lemma TakePlaces(s: State, s': State, i: nat, k: Candidate)
    requires Take(s, s', i)
    ensures Places(s', k) == Places(s, k)
  {
    HeldUpdate(s.workers, i, s'.workers[i], k);
    TimesTail(s.jobs, k);
  }

  lemma RunPlaces(s: State, s': State, i: nat, o: Results.Outcome, k: Candidate)
    requires Run(s, s', i, o)
    ensures Places(s', k) == Places(s, k)
  {
    HeldUpdate(s.workers, i, s'.workers[i], k);
    RecordedSnoc(s.recorded, Record(s.workers[i].job, o), k);
  }

  lemma CheckPlaces(s: State, s': State, i: nat, k: Candidate)
    requires Check(s, s', i)
    ensures Places(s', k) == Places(s, k)
  {
    HeldUpdate(s.workers, i, s'.workers[i], k);
    TimesSnoc(s.dropped, s.workers[i].job, k);
  }

  lemma WorkerKeepsInv(u: Setup, s: State, s': State, i: nat)
    requires Inv(u, s) && WorkerStep(s, s', i)
    ensures Inv(u, s')
  {
    WorkerKeepsOrder(u, s, s', i);
    forall k ensures Places(s', k) == TimesFound(u, s'.next, k) {
      WorkerPlaces(s, s', i, k);
      assert Places(s, k) == TimesFound(u, s.next, k);
    }
  }

  lemma WorkerKeepsOrder(u: Setup, s: State, s': State, i: nat)
    requires InStep(u, s) && Orderly(u, s) && WorkerStep(s, s', i)
    ensures InStep(u, s') && Orderly(u, s') && s'.next == s.next
  {
  }

  lemma StepKeepsInv(u: Setup, s: State, s': State)
    requires Inv(u, s) && Next(u, s, s')
    ensures Inv(u, s')
  {
    if Discover(u, s, s') {
      DiscoverKeepsInv(u, s, s');
    } else if Send(u, s, s') || Abandon(s, s') || Close(u, s, s') || Finish(s, s') {
      DiscovererKeepsInv(u, s, s');
    } else if i: nat :| WorkerStep(s, s', i) {
      WorkerKeepsInv(u, s, s', i);
    } else {
      assert forall k :: Places(s', k) == Places(s, k);
    }
  }

  lemma {:induction false} RunKeepsInv(u: Setup, run: seq<State>, k: nat)
    requires IsRun(u, run) && k < |run|
    ensures Inv(u, run[k])
  {
    if k == 0 {
      InitHoldsInv(u, run[0]);
    } else {
      RunKeepsInv(u, run, k - 1);
      assert Next(u, run[k - 1], run[k - 1 + 1]);
      StepKeepsInv(u, run[k - 1], run[k]);
    }
  }

  // ----- safety over every run -----

  /** At every moment of every run, however it is scheduled and whether or not it
      is cancelled: no mutant is recorded more often than it was found, admitted
      checksums are distinct and in scope, what has been admitted is what one
      sequential pass would admit, and nothing is offered to a closed channel. */
  lemma NothingIsRecordedTwice(u: Setup, run: seq<State>, k: nat)
    requires IsRun(u, run) && k < |run|
    ensures run[k].next <= |u.all|
    ensures forall c :: TimesRecorded(run[k].recorded, c) <= TimesFound(u, run[k].next, c)
    ensures run[k].admitted == AdmittedOf(u.rules, u.all[..run[k].next]) && DistinctChecksums(run[k].admitted)
    ensures forall c :: c in run[k].admitted ==>
      c.captured && !c.outsideDiff && (u.rules.runId == "" || u.rules.runId == c.id) && c.checksum !in u.rules.blocked
    ensures run[k].closed ==> !run[k].d.Queuing?
  {
    RunKeepsInv(u, run, k);
    forall c ensures TimesRecorded(run[k].recorded, c) <= TimesFound(u, run[k].next, c) {
      assert Places(run[k], c) == TimesFound(u, run[k].next, c);
    }
    AdmittedAreDistinct(u.rules, u.all[..run[k].next]);
  }

  /** What has been admitted can be captured, and what is recorded without having
      been admitted is an error. */
  ghost predicate Labelled(s: State) {
    && (s.d.Queuing? ==> s.d.job.captured)
    && (forall i :: 0 <= i < |s.jobs| ==> s.jobs[i].captured)
    && (forall i :: 0 <= i < |s.workers| ==>
          (s.workers[i].Taken? || s.workers[i].Running? ==> s.workers[i].job.captured))
    && (forall i :: 0 <= i < |s.recorded| && !s.recorded[i].job.captured ==> s.recorded[i].outcome == Results.Errored)
  }

  lemma WorkerKeepsLabelled(s: State, s': State, i: nat)
    requires Labelled(s) && WorkerStep(s, s', i)
    ensures Labelled(s')
  {
    if o :| Run(s, s', i, o) {
      assert s.workers[i].job.captured;
    }
  }

  lemma StepKeepsLabelled(u: Setup, s: State, s': State)
    requires Labelled(s) && Next(u, s, s')
    ensures Labelled(s')
  {
    if i: nat :| WorkerStep(s, s', i) {
      WorkerKeepsLabelled(s, s', i);
    }
  }

  /** At every moment of every run, a mutant that could not be captured has been
      recorded as an error, and as nothing else. */
  lemma {:induction false} UncapturedIsError(u: Setup, run: seq<State>, k: nat)
    requires IsRun(u, run) && k < |run|
    ensures Labelled(run[k])
    ensures forall r :: r in run[k].recorded && !r.job.captured ==> r.outcome == Results.Errored
  {
    if k > 0 {
      UncapturedIsError(u, run, k - 1);
      assert Next(u, run[k - 1], run[k - 1 + 1]);
      StepKeepsLabelled(u, run[k - 1], run[k]);
    }
  }

  /** Discovery finds each mutant that cannot be captured as often as it meets it. */
  lemma {:induction false} UncapturedIsFound(u: Setup, n: nat, c: Candidate)
    requires n <= |u.all| && !c.captured
    ensures TimesFound(u, n, c) == Times(u.all[..n], c)
  {
    if n > 0 {
      UncapturedIsFound(u, n - 1, c);
      FoundNext(u, n - 1, c);
      TimesNext(u.all, n - 1, c);
    }
  }

  lemma TimesNext(cs: seq<Candidate>, n: nat, c: Candidate)
    requires n < |cs|
    ensures Times(cs[..n + 1], c) == Times(cs[..n], c) + if cs[n] == c then 1 else 0
  {
    assert cs[..n + 1] == cs[..n] + [cs[n]];
    TimesSnoc(cs[..n], cs[n], c);
  }

  // ----- runs end, and end well -----

  lemma NoDeadlock(u: Setup, run: seq<State>) returns (s': State)
    requires IsRun(u, run) && u.workers > 0 && !run[|run| - 1].d.Stopped?
    ensures Works(u, run[|run| - 1], s')
  {
    var s := run[|run| - 1];
    RunKeepsInv(u, run, |run| - 1);
    if i :| 0 <= i < |s.workers| && s.workers[i].Taken? {
      s' := if s.cancelled then s.(workers := s.workers[i := Idle], dropped := s.dropped + [s.workers[i].job])
            else s.(workers := s.workers[i := Running(s.workers[i].job)]);
      assert WorkerStep(s, s', i);
    } else if i :| 0 <= i < |s.workers| && s.workers[i].Running? {
      s' := s.(workers := s.workers[i := Idle], recorded := s.recorded + [Record(s.workers[i].job, Results.Killed)]);
      assert Run(s, s', i, Results.Killed) && WorkerStep(s, s', i);
    } else if s.jobs != [] {
      assert s.workers[0].Idle?;
      s' := s.(jobs := s.jobs[1..], workers := s.workers[0 := Taken(s.jobs[0])]);
      assert WorkerStep(s, s', 0);
    } else {
      s' := NextOfDiscoverer(u, s);
    }
  }

  lemma NextOfDiscoverer(u: Setup, s: State) returns (s': State)
    requires Inv(u, s) && u.workers > 0 && !s.d.Stopped? && s.jobs == []
    requires forall i :: 0 <= i < |s.workers| ==> s.workers[i].Idle? || s.workers[i].Exited?
    ensures Works(u, s, s')
  {
    match s.d
    case Queuing(job) =>
      s' := s.(d := Discovering, jobs := s.jobs + [job]);
      assert Send(u, s, s');
    case Waiting =>
      if i :| 0 <= i < |s.workers| && s.workers[i].Idle? {
        s' := s.(workers := s.workers[i := Exited]);
        assert WorkerStep(s, s', i);
      } else {
        s' := s.(d := Stopped);
        assert Finish(s, s');
      }
    case Discovering =>
      if s.next == |u.all| || s.failed {
        s' := s.(d := Waiting, closed := true);
        assert Close(u, s, s');
      } else {
        var c := u.all[s.next];
        s' := if !c.captured then s.(next := s.next + 1, recorded := s.recorded + [Record(c, Results.Errored)])
              else if !Judge(u.rules, s.seen, c).Admitted? then s.(next := s.next + 1)
              else s.(next := s.next + 1, d := Queuing(c), seen := s.seen + {c.checksum}, admitted := s.admitted + [c]);
        assert Discover(u, s, s');
      }
  }

  function Effort(w: Worker): nat {
    match w
    case Taken(_) => 3
    case Running(_) => 2
    case Idle => 1
    case Exited => 0
  }

  function Efforts(ws: seq<Worker>): nat {
    if ws == [] then 0 else Effort(ws[0]) + Efforts(ws[1..])
  }

  lemma {:induction false} EffortsUpdate(ws: seq<Worker>, i: nat, w: Worker)
    requires i < |ws|
    ensures Efforts(ws[i := w]) + Effort(ws[i]) == Efforts(ws) + Effort(w)
  {
    if i == 0 {
      assert ws[0 := w][1..] == ws[1..] && ws[0 := w][0] == w;
    } else {
      EffortsUpdate(ws[1..], i - 1, w);
      assert ws[i := w][0] == ws[0] && ws[i := w][1..] == ws[1..][i - 1 := w];
    }
  }

  /** A bound on the steps left. */
  function Left(u: Setup, s: State): nat
    requires s.next <= |u.all|
  {
    5 * (|u.all| - s.next) + 3 * |s.jobs| + Efforts(s.workers) + (if s.cancelled then 0 else 1) +
        (if s.failed then 0 else 1)
    + match s.d { case Queuing(_) => 6 case Discovering => 2 case Waiting => 1 case Stopped => 0 }
  }

  lemma StepUsesOne(u: Setup, s: State, s': State)
    requires Inv(u, s) && Next(u, s, s')
    ensures s'.next <= |u.all| && Left(u, s') < Left(u, s)
  {
    if i: nat :| WorkerStep(s, s', i) {
      WorkerUsesOne(u, s, s', i);
    }
  }

  lemma WorkerUsesOne(u: Setup, s: State, s': State, i: nat)
    requires s.next <= |u.all| && WorkerStep(s, s', i)
    ensures s'.next <= |u.all| && Left(u, s') < Left(u, s)
  {
    if Take(s, s', i) {
      TakeUsesOne(u, s, s', i);
    } else {
      EffortsUpdate(s.workers, i, s'.workers[i]);
    }
  }

  lemma TakeUsesOne(u: Setup, s: State, s': State, i: nat)
    requires s.next <= |u.all| && Take(s, s', i)
    ensures s'.next <= |u.all| && Left(u, s') < Left(u, s)
  {
    EffortsUpdate(s.workers, i, s'.workers[i]);
  }

  lemma {:induction false} RunIsBounded(u: Setup, run: seq<State>, k: nat)
    requires IsRun(u, run) && k < |run|
    ensures Inv(u, run[0]) && Inv(u, run[k]) && k + Left(u, run[k]) <= Left(u, run[0])
  {
    RunKeepsInv(u, run, 0);
    RunKeepsInv(u, run, k);
    if k > 0 {
      RunIsBounded(u, run, k - 1);
      assert Next(u, run[k - 1], run[k - 1 + 1]);
      StepUsesOne(u, run[k - 1], run[k]);
    }
  }

  ghost predicate Stuck(u: Setup, s: State) {
    forall s' :: !Works(u, s, s')
  }

  lemma {:induction false} SumOfInit(ws: seq<Worker>)
    requires forall i :: 0 <= i < |ws| ==> ws[i].Idle?
    ensures Efforts(ws) == |ws|
  {
    if ws != [] {
      SumOfInit(ws[1..]);
    }
  }

  /** Every run is finite, and one that cannot go on has stopped with an empty
      channel and all workers gone. If it was not cancelled, each mutant that a
      sequential pass admits or fails to capture as far as discovery got is
      recorded exactly once, and discovery got through unless it failed. */
  lemma RunsConserveMutants(u: Setup, run: seq<State>)
    requires IsRun(u, run) && u.workers > 0
    ensures |run| <= 5 * |u.all| + u.workers + 5
    ensures Stuck(u, run[|run| - 1]) ==>
      var last := run[|run| - 1];
      && last.d.Stopped? && last.jobs == []
      && (forall i :: 0 <= i < |last.workers| ==> last.workers[i].Exited?)
      && last.next <= |u.all|
      && (!last.cancelled ==>
            && (last.failed || last.next == |u.all|)
            && forall c :: TimesRecorded(last.recorded, c) == TimesFound(u, last.next, c))
  {
    var last := run[|run| - 1];
    RunIsBounded(u, run, |run| - 1);
    SumOfInit(run[0].workers);
    if Stuck(u, last) {
      if !last.d.Stopped? {
        var s' := NoDeadlock(u, run);
      }
      forall c ensures !last.cancelled ==> TimesRecorded(last.recorded, c) == TimesFound(u, last.next, c) {
        assert Places(last, c) == TimesFound(u, last.next, c);
        IdleHoldNothing(last.workers, c);
      }
    }
  }

  // ----- the report -----

  function JobsOf(rs: seq<Record>): seq<Candidate> {
    seq(|rs|, i requires 0 <= i < |rs| => rs[i].job)
  }

  lemma {:induction false} TimesIsMultiplicity(cs: seq<Candidate>, c: Candidate)
    ensures Times(cs, c) == multiset(cs)[c]
  {
    if cs != [] {
      TimesIsMultiplicity(cs[..|cs| - 1], c);
      assert cs == cs[..|cs| - 1] + [cs[|cs| - 1]];
    }
  }

  lemma {:induction false} TimesRecordedIsTimes(rs: seq<Record>, c: Candidate)
    ensures TimesRecorded(rs, c) == Times(JobsOf(rs), c)
  {
    if rs != [] {
      TimesRecordedIsTimes(rs[..|rs| - 1], c);
      assert JobsOf(rs)[..|rs| - 1] == JobsOf(rs[..|rs| - 1]);
    }
  }

  /** What the store holds: recordMutantResult keeps the mutant under its outcome. */
  function Stored(rs: seq<Record>): seq<Results.Record> {
    seq(|rs|, i requires 0 <= i < |rs| =>
      Results.Record(Results.Mutant(rs[i].job.id, rs[i].job.mutatorName), rs[i].outcome))
  }

  /** The report of an uncancelled run counts every mutant that was admitted or
      could not be captured as far as discovery got, which is to the end unless it
      failed, whatever the outcomes and the schedule. */
  lemma ReportCountsEveryMutant(u: Setup, run: seq<State>)
    requires IsRun(u, run) && u.workers > 0
    requires Stuck(u, run[|run| - 1]) && !run[|run| - 1].cancelled
    ensures var last := run[|run| - 1];
      && last.next <= |u.all| && (last.failed || last.next == |u.all|)
      && Results.StatsOf(Stored(last.recorded)).Total() ==
           |AdmittedOf(u.rules, u.all[..last.next])| + |FailedOf(u.all[..last.next])|
  {
    RunsConserveMutants(u, run);
    var n := run[|run| - 1].next;
    var rs, a, f := run[|run| - 1].recorded, AdmittedOf(u.rules, u.all[..n]), FailedOf(u.all[..n]);
    assert multiset(JobsOf(rs)) == multiset(a) + multiset(f) by {
      forall c ensures multiset(JobsOf(rs))[c] == multiset(a)[c] + multiset(f)[c] {
        TimesRecordedIsTimes(rs, c);
        TimesIsMultiplicity(JobsOf(rs), c);
        TimesIsMultiplicity(a, c);
        TimesIsMultiplicity(f, c);
        assert TimesRecorded(rs, c) == TimesFound(u, n, c);
      }
    }
    assert |JobsOf(rs)| == |multiset(JobsOf(rs))| == |multiset(a)| + |multiset(f)|;
    Results.TotalIsRecorded(Stored(rs));
  }
}
