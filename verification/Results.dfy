/**
 The result store of internal/engine/results.go and the report totals of
 internal/models/report.go.
*/
module Results {
  import opened Sequences
  datatype Outcome = Killed | Escaped | Skipped | NotCovered | Errored

  /** A recorded mutant; only the mutator's name matters to the totals. */
  datatype Mutant = Mutant(id: string, mutatorName: string)

  datatype Record = Record(mutant: Mutant, outcome: Outcome)

  datatype Stats = Stats(killed: nat, escaped: nat, skipped: nat, errored: nat, notCovered: nat)
  {
    /** TotalCount. */
    function Total(): nat {
      killed + escaped + errored + skipped + notCovered
    }
  }

  /** The mutants recorded with one outcome, in order. */
  function With(rs: seq<Record>, o: Outcome): seq<Mutant> {
    if rs == [] then []
    else (if rs[0].outcome == o then [rs[0].mutant] else []) + With(rs[1..], o)
  }

  lemma {:induction false} WithAppend(rs: seq<Record>, r: Record, o: Outcome)
    ensures With(rs + [r], o) == With(rs, o) + if r.outcome == o then [r.mutant] else []
  {
    if rs == [] {
      NoAppend([r]);
      NoAppend(if r.outcome == o then [r.mutant] else []);
    } else {
      WithAppend(rs[1..], r, o);
      AppendStep(rs, [r]);
      Assoc(if rs[0].outcome == o then [rs[0].mutant] else [], With(rs[1..], o),
            if r.outcome == o then [r.mutant] else []);
    }
  }

  function StatsOf(rs: seq<Record>): Stats {
    Stats(|With(rs, Killed)|, |With(rs, Escaped)|, |With(rs, Skipped)|, |With(rs, Errored)|, |With(rs, NotCovered)|)
  }

  /** Every recorded mutant is counted under exactly one outcome. */
  lemma {:induction false} TotalIsRecorded(rs: seq<Record>)
    ensures StatsOf(rs).Total() == |rs|
  {
    if rs != [] {
      TotalIsRecorded(rs[1..]);
    }
  }

  // ----- per-mutator totals -----

  datatype MutatorStats = MutatorStats(killed: nat, escaped: nat, skipped: nat, total: nat)

  /** How many mutants in the list a mutator made. */
  function CountOf(ms: seq<Mutant>, name: string): nat {
    if ms == [] then 0 else (if ms[0].mutatorName == name then 1 else 0) + CountOf(ms[1..], name)
  }

  lemma {:induction false} CountOfNext(ms: seq<Mutant>, i: nat, name: string)
    requires i < |ms|
    ensures CountOf(ms[..i + 1], name) == CountOf(ms[..i], name) + if ms[i].mutatorName == name then 1 else 0
  {
    if i == 0 {
      assert ms[..1][1..] == [];
    } else {
      CountOfNext(ms[1..], i - 1, name);
      assert ms[..i + 1][1..] == ms[1..][..i] && ms[..i][1..] == ms[1..][..i - 1];
    }
  }

  /** The four lists whose mutants were run. */
  datatype Tested = Tested(killed: seq<Mutant>, escaped: seq<Mutant>, skipped: seq<Mutant>, errored: seq<Mutant>)

  /** The totals of one mutator; an error counts as a kill. */
  function StatsFor(t: Tested, name: string): MutatorStats {
    var k, e, s, x := CountOf(t.killed, name), CountOf(t.escaped, name), CountOf(t.skipped, name),
        CountOf(t.errored, name);
    MutatorStats(k + x, e, s, k + e + s + x)
  }

  const ZERO_STATS := MutatorStats(0, 0, 0, 0)

  function Lookup(counts: map<string, MutatorStats>, name: string): MutatorStats {
    if name in counts then counts[name] else ZERO_STATS
  }

  /** counts holds the totals of the mutators that made any of the mutants. */
  ghost predicate Tallies(counts: map<string, MutatorStats>, t: Tested) {
    && (forall name :: Lookup(counts, name) == StatsFor(t, name))
    && (forall name :: name in counts ==> counts[name].total > 0)
  }

  datatype Column = KilledColumn | EscapedColumn | SkippedColumn

  function Bump(s: MutatorStats, column: Column): MutatorStats {
    match column
    case KilledColumn => s.(killed := s.killed + 1, total := s.total + 1)
    case EscapedColumn => s.(escaped := s.escaped + 1, total := s.total + 1)
    case SkippedColumn => s.(skipped := s.skipped + 1, total := s.total + 1)
  }

  function BumpBy(s: MutatorStats, column: Column, n: nat): MutatorStats {
    match column
    case KilledColumn => s.(killed := s.killed + n, total := s.total + n)
    case EscapedColumn => s.(escaped := s.escaped + n, total := s.total + n)
    case SkippedColumn => s.(skipped := s.skipped + n, total := s.total + n)
  }

  /** The closure `add` of computeMutatorStats. */
  method AddList(before: map<string, MutatorStats>, ms: seq<Mutant>, column: Column)
    returns (counts: map<string, MutatorStats>)
    requires forall name :: name in before ==> before[name].total > 0
    ensures forall name :: Lookup(counts, name) == BumpBy(Lookup(before, name), column, CountOf(ms, name))
    ensures forall name :: name in counts ==> counts[name].total > 0
  {
    counts := before;
    for i := 0 to |ms|
      invariant forall name :: Lookup(counts, name) == BumpBy(Lookup(before, name), column, CountOf(ms[..i], name))
      invariant forall name :: name in counts ==> counts[name].total > 0
    {
      var name := ms[i].mutatorName;
      forall q ensures Lookup(counts[name := Bump(Lookup(counts, name), column)], q) ==
                       BumpBy(Lookup(before, q), column, CountOf(ms[..i + 1], q))
      {
        AddOne(counts, before, ms, i, column, q);
      }
      counts := counts[name := Bump(Lookup(counts, name), column)];
    }
    assert ms[..|ms|] == ms;
  }

  lemma AddOne(counts: map<string, MutatorStats>, before: map<string, MutatorStats>, ms: seq<Mutant>, i: nat,
               column: Column, q: string)
    requires i < |ms| && Lookup(counts, q) == BumpBy(Lookup(before, q), column, CountOf(ms[..i], q))
    ensures var name := ms[i].mutatorName;
      Lookup(counts[name := Bump(Lookup(counts, name), column)], q) ==
          BumpBy(Lookup(before, q), column, CountOf(ms[..i + 1], q))
  {
    CountOfNext(ms, i, q);
  }

  method ComputeMutatorStats(t: Tested) returns (counts: map<string, MutatorStats>)
    ensures Tallies(counts, t)
  {
    counts := AddList(map[], t.killed, KilledColumn);
    counts := AddList(counts, t.escaped, EscapedColumn);
    counts := AddList(counts, t.skipped, SkippedColumn);
    counts := AddList(counts, t.errored, KilledColumn);
  }

  /** The sum of the totals of the named mutators. */
  ghost function SumTotals(counts: map<string, MutatorStats>, names: set<string>): nat
    requires names <= counts.Keys
  {
    if names == {} then 0
    else
      var name :| name in names;
      counts[name].total + SumTotals(counts, names - {name})
  }

  /** How many mutants of the list the named mutators made. */
  function CountAny(ms: seq<Mutant>, names: set<string>): nat {
    if ms == [] then 0 else (if ms[0].mutatorName in names then 1 else 0) + CountAny(ms[1..], names)
  }

  lemma {:induction false} CountAnySplits(ms: seq<Mutant>, names: set<string>, name: string)
    requires name in names
    ensures CountAny(ms, names) == CountOf(ms, name) + CountAny(ms, names - {name})
  {
    if ms != [] {
      CountAnySplits(ms[1..], names, name);
    }
  }

  lemma {:induction false} CountAnyOfNone(ms: seq<Mutant>)
    ensures CountAny(ms, {}) == 0
  {
    if ms != [] {
      CountAnyOfNone(ms[1..]);
    }
  }

  lemma {:induction false} SumIsCountAny(counts: map<string, MutatorStats>, t: Tested, names: set<string>)
    requires Tallies(counts, t) && names <= counts.Keys
    ensures SumTotals(counts, names) ==
      CountAny(t.killed, names) + CountAny(t.escaped, names) + CountAny(t.skipped, names) + CountAny(t.errored, names)
  {
    if names == {} {
      CountAnyOfNone(t.killed);
      CountAnyOfNone(t.escaped);
      CountAnyOfNone(t.skipped);
      CountAnyOfNone(t.errored);
    } else {
      var name :| name in names && SumTotals(counts, names) == counts[name].total + SumTotals(counts, names - {name});
      SumIsCountAny(counts, t, names - {name});
      CountAnySplits(t.killed, names, name);
      CountAnySplits(t.escaped, names, name);
      CountAnySplits(t.skipped, names, name);
      CountAnySplits(t.errored, names, name);
      assert Lookup(counts, name) == StatsFor(t, name);
    }
  }

  lemma {:induction false} CountAnyOfAll(ms: seq<Mutant>, names: set<string>)
    requires forall i :: 0 <= i < |ms| ==> ms[i].mutatorName in names
    ensures CountAny(ms, names) == |ms|
  {
    if ms != [] {
      CountAnyOfAll(ms[1..], names);
    }
  }

  lemma {:induction false} MadeByIsCounted(ms: seq<Mutant>, i: nat)
    requires i < |ms|
    ensures CountOf(ms, ms[i].mutatorName) > 0
  {
    if i > 0 {
      MadeByIsCounted(ms[1..], i - 1);
    }
  }

  function TestedOf(rs: seq<Record>): Tested {
    Tested(With(rs, Killed), With(rs, Escaped), With(rs, Skipped), With(rs, Errored))
  }

  /** The per-mutator totals add up to every recorded mutant that was run. */
  lemma MutatorTotalsConserve(rs: seq<Record>, counts: map<string, MutatorStats>)
    requires Tallies(counts, TestedOf(rs))
    ensures SumTotals(counts, counts.Keys) == |rs| - StatsOf(rs).notCovered
  {
    var t := TestedOf(rs);
    SumIsCountAny(counts, t, counts.Keys);
    forall ms: seq<Mutant>, i | ms in {t.killed, t.escaped, t.skipped, t.errored} && 0 <= i < |ms|
      ensures ms[i].mutatorName in counts.Keys
    {
      MadeByIsCounted(ms, i);
      assert Lookup(counts, ms[i].mutatorName) == StatsFor(t, ms[i].mutatorName);
    }
    CountAnyOfAll(t.killed, counts.Keys);
    CountAnyOfAll(t.escaped, counts.Keys);
    CountAnyOfAll(t.skipped, counts.Keys);
    CountAnyOfAll(t.errored, counts.Keys);
    TotalIsRecorded(rs);
  }

  /** How many records satisfy a test. */
  function Number(rs: seq<Record>, test: Record -> bool): nat {
    if rs == [] then 0 else (if test(rs[0]) then 1 else 0) + Number(rs[1..], test)
  }

  lemma {:induction false} CountIsNumber(rs: seq<Record>, o: Outcome, name: string)
    ensures CountOf(With(rs, o), name) ==
            Number(rs, (r: Record) => r.outcome == o && r.mutant.mutatorName == name)
  {
    if rs != [] {
      CountIsNumber(rs[1..], o, name);
      NoAppend(With(rs[1..], o));
      AppendStep([rs[0].mutant], With(rs[1..], o));
    }
  }

  lemma {:induction false} OutcomeIsNumber(rs: seq<Record>, o: Outcome)
    ensures |With(rs, o)| == Number(rs, (r: Record) => r.outcome == o)
  {
    if rs != [] {
      OutcomeIsNumber(rs[1..], o);
    }
  }

  /** The report's counts are the numbers of records with each outcome. */
  lemma StatsAreNumbers(rs: seq<Record>)
    ensures var s := StatsOf(rs);
      && s.killed == Number(rs, (r: Record) => r.outcome == Killed)
      && s.escaped == Number(rs, (r: Record) => r.outcome == Escaped)
      && s.skipped == Number(rs, (r: Record) => r.outcome == Skipped)
      && s.errored == Number(rs, (r: Record) => r.outcome == Errored)
      && s.notCovered == Number(rs, (r: Record) => r.outcome == NotCovered)
  {
    OutcomeIsNumber(rs, Killed);
    OutcomeIsNumber(rs, Escaped);
    OutcomeIsNumber(rs, Skipped);
    OutcomeIsNumber(rs, Errored);
    OutcomeIsNumber(rs, NotCovered);
  }

  lemma {:induction false} NumberOfEither(rs: seq<Record>, a: Outcome, b: Outcome, name: string)
    requires a != b
    ensures Number(rs, (r: Record) => (r.outcome == a || r.outcome == b) && r.mutant.mutatorName == name) ==
      Number(rs, (r: Record) => r.outcome == a && r.mutant.mutatorName == name) +
      Number(rs, (r: Record) => r.outcome == b && r.mutant.mutatorName == name)
  {
    if rs != [] {
      NumberOfEither(rs[1..], a, b, name);
    }
  }

  /** A mutator's totals in terms of the records: errors are kills, and mutants that
      no test covers are not in the table. */
  lemma MutatorTotalsAreNumbers(rs: seq<Record>, counts: map<string, MutatorStats>, name: string)
    requires Tallies(counts, TestedOf(rs))
    ensures var s := Lookup(counts, name);
      && s.killed ==
           Number(rs, (r: Record) => (r.outcome == Killed || r.outcome == Errored) && r.mutant.mutatorName == name)
      && s.escaped == Number(rs, (r: Record) => r.outcome == Escaped && r.mutant.mutatorName == name)
      && s.skipped == Number(rs, (r: Record) => r.outcome == Skipped && r.mutant.mutatorName == name)
      && s.total == s.killed + s.escaped + s.skipped
  {
    assert Lookup(counts, name) == StatsFor(TestedOf(rs), name);
    CountIsNumber(rs, Killed, name);
    CountIsNumber(rs, Errored, name);
    CountIsNumber(rs, Escaped, name);
    CountIsNumber(rs, Skipped, name);
    NumberOfEither(rs, Killed, Errored, name);
  }

  // ----- the store -----

  /** The fields of models.Report the store fills; `duplicated` stands for those
      it leaves alone. */
  class Report {
    var stats: Stats
    var killed: seq<Mutant>
    var escaped: seq<Mutant>
    var skipped: seq<Mutant>
    var errored: seq<Mutant>
    var notCovered: seq<Mutant>
    var duplicated: nat

    constructor ()
      ensures duplicated == 0
    {
      stats := Stats(0, 0, 0, 0, 0);
      killed, escaped, skipped, errored, notCovered, duplicated := [], [], [], [], [], 0;
    }
  }

  class CompletedResults {
    var killed: seq<Mutant>
    var escaped: seq<Mutant>
    var skipped: seq<Mutant>
    var errored: seq<Mutant>
    var notCovered: seq<Mutant>
    /** Everything recorded, in order. */
    ghost var recorded: seq<Record>

    ghost predicate Valid()
      reads this
    {
      && killed == With(recorded, Killed)
      && escaped == With(recorded, Escaped)
      && skipped == With(recorded, Skipped)
      && errored == With(recorded, Errored)
      && notCovered == With(recorded, NotCovered)
    }

    constructor ()
      ensures Valid() && recorded == []
    {
      killed, escaped, skipped, errored, notCovered, recorded := [], [], [], [], [], [];
    }

    function Counts(): Stats
      reads this
    {
      Stats(|killed|, |escaped|, |skipped|, |errored|, |notCovered|)
    }

    method Add(outcome: Outcome, mutant: Mutant) returns (stats: Stats)
      requires Valid()
      modifies this
      ensures Valid() && recorded == old(recorded) + [Record(mutant, outcome)]
      ensures stats == StatsOf(recorded) && stats.Total() == |recorded|
    {
      forall o { WithAppend(recorded, Record(mutant, outcome), o); }
      match outcome {
        case Killed => killed := killed + [mutant];
        case Escaped => escaped := escaped + [mutant];
        case Skipped => skipped := skipped + [mutant];
        case NotCovered => notCovered := notCovered + [mutant];
        case Errored => errored := errored + [mutant];
      }
      recorded := recorded + [Record(mutant, outcome)];
      TotalIsRecorded(recorded);
      stats := Counts();
    }

    method Fill(report: Report)
      requires Valid()
      modifies report
      ensures report.killed == With(recorded, Killed) && report.escaped == With(recorded, Escaped)
      ensures report.skipped == With(recorded, Skipped) && report.errored == With(recorded, Errored)
      ensures report.notCovered == With(recorded, NotCovered)
      ensures report.stats == StatsOf(recorded) && report.stats.Total() == |recorded|
      ensures report.duplicated == old(report.duplicated)
    {
      report.killed, report.escaped, report.skipped := killed, escaped, skipped;
      report.errored, report.notCovered := errored, notCovered;
      report.stats := Counts();
      TotalIsRecorded(recorded);
    }
  }
}
