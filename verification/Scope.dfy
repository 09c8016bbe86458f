/** Which discovered mutants are admitted: internal/engine/scope.go. */
module Scope {
  /** A discovered edit. `captured` is false when its source range or identity
      could not be taken; `outsideDiff` is what the git-diff rule says of it. */
  datatype Candidate = Candidate(captured: bool, outsideDiff: bool, id: string, checksum: string, mutatorName: string)

  datatype Rules = Rules(runId: string, blocked: set<string>)

  datatype Reason = Admitted | SkipGitDiff | SkipMutantId | SkipBlacklist | SkipDuplicate

  /** The rules in the order the code applies them. */
  function Judge(rules: Rules, seen: set<string>, c: Candidate): Reason {
    if c.outsideDiff then SkipGitDiff
    else if rules.runId != "" && c.id != rules.runId then SkipMutantId
    else if c.checksum in rules.blocked then SkipBlacklist
    else if c.checksum in seen then SkipDuplicate
    else Admitted
  }

  /** The candidates of a discovery pass that become jobs, in order. */
  function AdmittedOf(rules: Rules, cs: seq<Candidate>): seq<Candidate> {
    if cs == [] then []
    else
      var before, c := AdmittedOf(rules, cs[..|cs| - 1]), cs[|cs| - 1];
      if c.captured && Judge(rules, Checksums(before), c).Admitted? then before + [c] else before
  }

  /** The candidates reported as errors without becoming jobs. */
  function FailedOf(cs: seq<Candidate>): seq<Candidate> {
    if cs == [] then []
    else FailedOf(cs[..|cs| - 1]) + if cs[|cs| - 1].captured then [] else [cs[|cs| - 1]]
  }

  function Checksums(cs: seq<Candidate>): set<string> {
    set i | 0 <= i < |cs| :: cs[i].checksum
  }

  /** The candidate is not outside the diff, is the selected one if one is
      selected, and is not blacklisted. */
  predicate InScope(rules: Rules, c: Candidate) {
    !c.outsideDiff && (rules.runId == "" || rules.runId == c.id) && c.checksum !in rules.blocked
  }

  /** Admitted checksums are distinct, and every admitted candidate is in scope. */
  lemma {:induction false} AdmittedAreDistinct(rules: Rules, cs: seq<Candidate>)
    ensures DistinctChecksums(AdmittedOf(rules, cs))
    ensures forall c :: c in AdmittedOf(rules, cs) ==> c in cs && c.captured && InScope(rules, c)
  {
    if cs != [] {
      var before := AdmittedOf(rules, cs[..|cs| - 1]);
      AdmittedAreDistinct(rules, cs[..|cs| - 1]);
      assert forall i :: 0 <= i < |before| ==> before[i].checksum in Checksums(before);
    }
  }

  ghost predicate DistinctChecksums(cs: seq<Candidate>) {
    forall i, j :: 0 <= i < j < |cs| ==> cs[i].checksum != cs[j].checksum
  }

  /** Rejected candidates hide nothing: a captured candidate in scope is admitted,
      or an earlier one with its checksum is. */
  lemma {:induction false} InScopeIsAdmitted(rules: Rules, cs: seq<Candidate>, i: nat)
    requires i < |cs| && cs[i].captured && InScope(rules, cs[i])
    ensures cs[i].checksum in Checksums(AdmittedOf(rules, cs))
  {
    var n := |cs| - 1;
    var before, c := AdmittedOf(rules, cs[..n]), cs[n];
    var after := AdmittedOf(rules, cs);
    assert forall k :: 0 <= k < |before| ==> after[k] == before[k];
    if i < n {
      InScopeIsAdmitted(rules, cs[..n], i);
      var k :| 0 <= k < |before| && before[k].checksum == cs[i].checksum;
      assert after[k].checksum == cs[i].checksum;
    } else if c.checksum in Checksums(before) {
      var k :| 0 <= k < |before| && before[k].checksum == c.checksum;
      assert after[k].checksum == c.checksum;
    } else {
      assert after[|before|] == c;
    }
  }

  /** The next candidate is admitted if and only if it is captured and in scope and
      no candidate before it that is has its checksum. */
  lemma FirstInScopeIsAdmitted(rules: Rules, cs: seq<Candidate>, n: nat)
    requires n < |cs|
    ensures var first := cs[n].captured && InScope(rules, cs[n]) &&
              forall i :: 0 <= i < n && cs[i].captured && InScope(rules, cs[i]) ==> cs[i].checksum != cs[n].checksum;
      AdmittedOf(rules, cs[..n + 1]) == AdmittedOf(rules, cs[..n]) + if first then [cs[n]] else []
  {
    var before, c := AdmittedOf(rules, cs[..n]), cs[n];
    assert cs[..n + 1][..n] == cs[..n];
    if c.checksum in Checksums(before) {
      AdmittedAreDistinct(rules, cs[..n]);
      var k :| 0 <= k < |before| && before[k].checksum == c.checksum;
      assert before[k] in before;
      var i :| 0 <= i < n && cs[i] == before[k];
    }
    forall i | 0 <= i < n && cs[i].captured && InScope(rules, cs[i]) ensures cs[i].checksum in Checksums(before) {
      InScopeIsAdmitted(rules, cs[..n], i);
    }
  }

  class MutantScope {
    const rules: Rules
    var seen: set<string>

    constructor (rules: Rules)
      ensures this.rules == rules && seen == {}
    {
      this.rules := rules;
      seen := {};
    }

    /** A rejected candidate is not remembered. */
    method Admit(c: Candidate) returns (ok: bool, reason: Reason)
      modifies this
      ensures var selected := rules.runId == "" || rules.runId == c.id;
        && (ok <==> !c.outsideDiff && selected && c.checksum !in rules.blocked && c.checksum !in old(seen))
        && (reason.Admitted? <==> ok)
        && (reason.SkipGitDiff? <==> c.outsideDiff)
        && (reason.SkipMutantId? <==> !c.outsideDiff && !selected)
        && (reason.SkipBlacklist? <==> !c.outsideDiff && selected && c.checksum in rules.blocked)
        && (reason.SkipDuplicate? <==>
              !c.outsideDiff && selected && c.checksum !in rules.blocked && c.checksum in old(seen))
      ensures reason == Judge(rules, old(seen), c)
      ensures seen == if ok then old(seen) + {c.checksum} else old(seen)
    {
      if c.outsideDiff {
        return false, SkipGitDiff;
      }
      if rules.runId != "" && c.id != rules.runId {
        return false, SkipMutantId;
      }
      if c.checksum in rules.blocked {
        return false, SkipBlacklist;
      }
      if c.checksum in seen {
        return false, SkipDuplicate;
      }
      seen := seen + {c.checksum};
      return true, Admitted;
    }
  }
}
