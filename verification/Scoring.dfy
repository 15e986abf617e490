/** The risk engine: findings to score, score to verdict, and the two-level cache of facts.
    The family of a code is an arbitrary function, so nothing below depends on the family table. */
module Scoring {

  datatype Verdict = Clean | Suspicious | Malicious | Unsupported | Encrypted | Error

  datatype FailMode = FailClosed | FailSuspicious | FailOpen

  datatype Finding = Finding(stage: string, code: string, score: nat)

  datatype Policy = Policy(blockThreshold: nat, suspiciousThreshold: nat, failMode: FailMode, shadowMode: bool)

  datatype Facts = Facts(
    findings: seq<Finding>,
    detectedMime: string, // "" when unknown
    encrypted: bool,
    supported: bool,
    failedStages: set<string>)

  const ESSENTIAL_STAGES := {"filetype", "structure", "clamav"}
  const REQUEST_DERIVED_CODES := {"MIME_MISMATCH", "EXT_MISMATCH"}

  type Family = string -> string

  function Max(a: nat, b: nat): nat { if a < b then b else a }

  function Min(a: nat, b: nat): nat { if a < b then a else b }

  // ----- the score, as a reference definition -----

  /** The strongest score any finding of family `fam` carries; 0 when there is none. */
  function Peak(fs: seq<Finding>, family: Family, fam: string): nat {
    if fs == [] then 0
    else
      var rest := Peak(fs[..|fs| - 1], family, fam);
      if family(fs[|fs| - 1].code) == fam then Max(rest, fs[|fs| - 1].score) else rest
  }

  function Families(fs: seq<Finding>, family: Family): set<string> {
    set f | f in fs :: family(f.code)
  }

  ghost function SumPeaks(fams: set<string>, fs: seq<Finding>, family: Family): nat {
    if fams == {} then 0
    else var x :| x in fams; Peak(fs, family, x) + SumPeaks(fams - {x}, fs, family)
  }

  /** Sum of the family maxima, cut at 100. */
  ghost function Score(fs: seq<Finding>, family: Family): nat {
    Min(100, SumPeaks(Families(fs, family), fs, family))
  }

  lemma {:induction false} SumPeaksRemove(fams: set<string>, fs: seq<Finding>, family: Family, y: string)
    requires y in fams
    ensures SumPeaks(fams, fs, family) == Peak(fs, family, y) + SumPeaks(fams - {y}, fs, family)
  {
    var x :| x in fams && SumPeaks(fams, fs, family) == Peak(fs, family, x) + SumPeaks(fams - {x}, fs, family);
    if x != y {
      SumPeaksRemove(fams - {x}, fs, family, y);
      SumPeaksRemove(fams - {y}, fs, family, x);
      assert fams - {x} - {y} == fams - {y} - {x};
    }
  }

  lemma {:induction false} SumPeaksMonotone(s: set<string>, t: set<string>, a: seq<Finding>, b: seq<Finding>, family: Family)
    requires s <= t
    requires forall x :: x in s ==> Peak(a, family, x) <= Peak(b, family, x)
    ensures SumPeaks(s, a, family) <= SumPeaks(t, b, family)
  {
    if s != {} {
      var x :| x in s;
      SumPeaksRemove(s, a, family, x);
      SumPeaksRemove(t, b, family, x);
      SumPeaksMonotone(s - {x}, t - {x}, a, b, family);
    }
  }

  /** `Peak` is an upper bound on the family, and it is attained unless it is 0. */
  lemma {:induction false} PeakIsMaximum(fs: seq<Finding>, family: Family, fam: string)
    ensures forall f :: f in fs && family(f.code) == fam ==> f.score <= Peak(fs, family, fam)
    ensures Peak(fs, family, fam) == 0 ||
            exists f :: f in fs && family(f.code) == fam && f.score == Peak(fs, family, fam)
  {
    if fs != [] {
      var init := fs[..|fs| - 1];
      PeakIsMaximum(init, family, fam);
      assert fs == init + [fs[|fs| - 1]];
      assert forall f :: f in fs <==> f in init || f == fs[|fs| - 1];
    }
  }

  /** Every finding of `a` is matched in `b` by one of the same code that weighs no less. */
  ghost predicate Covered(a: seq<Finding>, b: seq<Finding>) {
    forall f :: f in a ==> exists g :: g in b && g.code == f.code && f.score <= g.score
  }

  /** The score is monotone: what covers more findings never scores less. */
  lemma ScoreMonotone(a: seq<Finding>, b: seq<Finding>, family: Family)
    requires Covered(a, b)
    ensures Score(a, family) <= Score(b, family)
  {
    forall x | x in Families(a, family)
      ensures Peak(a, family, x) <= Peak(b, family, x)
    {
      PeakIsMaximum(a, family, x);
      PeakIsMaximum(b, family, x);
    }
    forall x | x in Families(a, family)
      ensures x in Families(b, family)
    {
      var f :| f in a && family(f.code) == x;
      var g :| g in b && g.code == f.code;
    }
    SumPeaksMonotone(Families(a, family), Families(b, family), a, b, family);
  }

  /** Order and repetition are irrelevant: findings that cover each other score the same. */
  lemma ScoreIsSetLike(a: seq<Finding>, b: seq<Finding>, family: Family)
    requires Covered(a, b) && Covered(b, a)
    ensures Score(a, family) == Score(b, family)
  {
    ScoreMonotone(a, b, family);
    ScoreMonotone(b, a, family);
  }

  /** One finding alone already forces its own score. */
  lemma OneFindingCounts(fs: seq<Finding>, f: Finding, family: Family)
    requires f in fs
    ensures Min(100, f.score) <= Score(fs, family)
  {
    PeakIsMaximum(fs, family, family(f.code));
    SumPeaksRemove(Families(fs, family), fs, family, family(f.code));
  }

  // ----- what the score is made of -----

  /** Findings of one family score their strongest, up to 100. */
  lemma OneFamilyScores(fs: seq<Finding>, f: Finding, family: Family)
    requires f in fs && forall g :: g in fs ==> family(g.code) == family(f.code) && g.score <= f.score
    ensures Score(fs, family) == Min(100, f.score)
  {
    var fam := family(f.code);
    assert Families(fs, family) == {fam};
    PeakIsMaximum(fs, family, fam);
    SumPeaksRemove({fam}, fs, family, fam);
    assert {fam} - {fam} == {};
  }

  lemma {:induction false} PeaksAlike(fams: set<string>, a: seq<Finding>, b: seq<Finding>, family: Family)
    requires forall x :: x in fams ==> Peak(a, family, x) == Peak(b, family, x)
    ensures SumPeaks(fams, a, family) == SumPeaks(fams, b, family)
  {
    SumPeaksMonotone(fams, fams, a, b, family);
    SumPeaksMonotone(fams, fams, b, a, family);
  }

  lemma {:induction false} SumInTwo(s: set<string>, t: set<string>, fs: seq<Finding>, family: Family)
    requires s !! t
    ensures SumPeaks(s + t, fs, family) == SumPeaks(s, fs, family) + SumPeaks(t, fs, family)
  {
    if s == {} {
      assert s + t == t;
    } else {
      var x :| x in s;
      SumPeaksRemove(s, fs, family, x);
      SumPeaksRemove(s + t, fs, family, x);
      assert (s + t) - {x} == (s - {x}) + t;
      SumInTwo(s - {x}, t, fs, family);
    }
  }

  /** Findings of different families add up, up to 100. */
  lemma FamiliesAddUp(a: seq<Finding>, b: seq<Finding>, family: Family)
    requires forall f, g :: f in a && g in b ==> family(f.code) != family(g.code)
    ensures Score(a + b, family) == Min(100, Score(a, family) + Score(b, family))
  {
    var s, t := Families(a, family), Families(b, family);
    assert forall f :: f in a + b <==> f in a || f in b;
    assert Families(a + b, family) == s + t;
    assert s !! t by {
      forall x | x in s
        ensures x !in t
      {
        var f :| f in a && family(f.code) == x;
      }
    }
    SumInTwo(s, t, a + b, family);
    forall x | x in s
      ensures Peak(a + b, family, x) == Peak(a, family, x)
    {
      PeakOfJoin(a, b, family, x);
      PeakOutside(b, family, x);
    }
    forall x | x in t
      ensures Peak(a + b, family, x) == Peak(b, family, x)
    {
      PeakOfJoin(a, b, family, x);
      PeakOutside(a, family, x);
    }
    PeaksAlike(s, a + b, a, family);
    PeaksAlike(t, a + b, b, family);
  }

  lemma {:induction false} PeakOfJoin(a: seq<Finding>, b: seq<Finding>, family: Family, fam: string)
    ensures Peak(a + b, family, fam) == Max(Peak(a, family, fam), Peak(b, family, fam))
  {
    if b == [] {
      assert a + b == a;
    } else {
      assert (a + b)[..|a + b| - 1] == a + b[..|b| - 1];
      PeakOfJoin(a, b[..|b| - 1], family, fam);
    }
  }

  // ----- the loop that computes it -----

  /** What the dictionary of strongest scores must hold after the findings `fs`. */
  ghost predicate Strongest(m: map<string, nat>, fs: seq<Finding>, family: Family) {
    && m.Keys == Families(fs, family)
    && forall x :: x in m ==> m[x] == Peak(fs, family, x)
  }

  lemma {:induction false} PeakOutside(fs: seq<Finding>, family: Family, fam: string)
    requires fam !in Families(fs, family)
    ensures Peak(fs, family, fam) == 0
  {
    PeakIsMaximum(fs, family, fam);
  }

  lemma StrongestStep(m: map<string, nat>, fs: seq<Finding>, family: Family, f: Finding)
    requires Strongest(m, fs, family)
    ensures var fam := family(f.code);
            Strongest(m[fam := Max(if fam in m then m[fam] else 0, f.score)], fs + [f], family)
  {
    var fam := family(f.code);
    var fs' := fs + [f];
    assert fs'[..|fs'| - 1] == fs;
    assert Families(fs', family) == Families(fs, family) + {fam} by {
      assert forall g :: g in fs' <==> g in fs || g == f;
      assert f in fs';
    }
    if fam !in m {
      PeakOutside(fs, family, fam);
    }
  }

  method ScoreOf(findings: seq<Finding>, family: Family) returns (score: nat)
    ensures score == Score(findings, family)
    ensures score <= 100
  {
    if exists f | f in findings :: f.score >= 100 {
      ghost var f :| f in findings && f.score >= 100;
      OneFindingCounts(findings, f, family);
      return 100;
    }
    var strongest: map<string, nat> := map[];
    for i := 0 to |findings|
      invariant Strongest(strongest, findings[..i], family)
    {
      var finding := findings[i];
      var fam := family(finding.code);
      StrongestStep(strongest, findings[..i], family, finding);
      assert findings[..i + 1] == findings[..i] + [finding];
      strongest := strongest[fam := Max(if fam in strongest then strongest[fam] else 0, finding.score)];
    }
    assert findings[..|findings|] == findings;
    var total, left := 0, strongest.Keys;
    while left != {}
      invariant left <= strongest.Keys
      invariant total + SumPeaks(left, findings, family) == SumPeaks(strongest.Keys, findings, family)
      decreases left
    {
      var x :| x in left;
      SumPeaksRemove(left, findings, family, x);
      total, left := total + strongest[x], left - {x};
    }
    return Min(100, total);
  }

  // ----- the verdict -----

  predicate CoverageIncomplete(facts: Facts) {
    facts.failedStages * ESSENTIAL_STAGES != {}
  }

  function VerdictOnFailure(policy: Policy): Verdict {
    match policy.failMode
    case FailOpen => Clean
    case FailClosed => Malicious
    case FailSuspicious => Suspicious
  }

  function ApplyFailure(current: Verdict, policy: Policy): Verdict {
    if current == Clean then VerdictOnFailure(policy) else current
  }

  /** Verdict and reported score of facts whose findings score `score`. */
  function VerdictAt(score: nat, facts: Facts, policy: Policy): (Verdict, nat) {
    if score >= policy.blockThreshold then (Malicious, score)
    else if facts.encrypted then (Encrypted, Max(score, policy.suspiciousThreshold))
    else if !facts.supported then (Unsupported, Max(score, policy.suspiciousThreshold))
    else if score >= policy.suspiciousThreshold then (Suspicious, score)
    else if CoverageIncomplete(facts) then
      var degraded := ApplyFailure(Clean, policy);
      if degraded != Clean then (degraded, Max(score, policy.suspiciousThreshold)) else (degraded, score)
    else (Clean, score)
  }

  ghost function VerdictOf(facts: Facts, policy: Policy, family: Family): (Verdict, nat) {
    VerdictAt(Score(facts.findings, family), facts, policy)
  }

  method ComputeVerdict(facts: Facts, policy: Policy, family: Family) returns (verdict: Verdict, score: nat)
    ensures (verdict, score) == VerdictOf(facts, policy, family)
  {
    var s := ScoreOf(facts.findings, family);
    var r := VerdictAt(s, facts, policy);
    return r.0, r.1;
  }

  predicate ShouldStopEarlyAt(score: nat, policy: Policy) {
    !policy.shadowMode && score >= policy.blockThreshold
  }

  /** Exactly when a file is called clean: nothing found above either threshold, everything
      readable, and every essential stage done unless the tenant fails open. */
  lemma CleanExactly(facts: Facts, policy: Policy, family: Family)
    ensures VerdictOf(facts, policy, family).0 == Clean <==>
            && Score(facts.findings, family) < Min(policy.blockThreshold, policy.suspiciousThreshold)
            && !facts.encrypted
            && facts.supported
            && (policy.failMode == FailOpen || !CoverageIncomplete(facts))
  {
  }

  /** Every verdict, in the order in which they are asked for, and the score reported with it: what is neither malicious
      nor suspicious by its score but not clean is reported as high as what is suspicious. */
  lemma VerdictExactly(facts: Facts, policy: Policy, family: Family)
    ensures var (verdict, reported) := VerdictOf(facts, policy, family);
            var score := Score(facts.findings, family);
            var readable := !facts.encrypted && facts.supported;
            var quiet := readable && score < Min(policy.blockThreshold, policy.suspiciousThreshold);
            var failed := exists stage :: stage in facts.failedStages && stage in {"filetype", "structure", "clamav"};
            && (verdict == Malicious <==> score >= policy.blockThreshold || (quiet && failed && policy.failMode == FailClosed))
            && (verdict == Encrypted <==> score < policy.blockThreshold && facts.encrypted)
            && (verdict == Unsupported <==> score < policy.blockThreshold && !facts.encrypted && !facts.supported)
            && (verdict == Suspicious <==>
                  || (readable && policy.suspiciousThreshold <= score < policy.blockThreshold)
                  || (quiet && failed && policy.failMode == FailSuspicious))
            && (verdict == Clean <==> quiet && (!failed || policy.failMode == FailOpen))
            && verdict != Error
            && reported == if score >= policy.blockThreshold || verdict == Clean || score >= policy.suspiciousThreshold
                           then score else policy.suspiciousThreshold
  {
    hide Score;
    assert CoverageIncomplete(facts) <==>
           exists stage :: stage in facts.failedStages && stage in {"filetype", "structure", "clamav"} by {
      if CoverageIncomplete(facts) {
        var stage :| stage in facts.failedStages * ESSENTIAL_STAGES;
      }
      if stage :| stage in facts.failedStages && stage in {"filetype", "structure", "clamav"} {
        assert stage in facts.failedStages * ESSENTIAL_STAGES;
      }
    }
  }

  /** A verdict other than clean is never reported below the weaker threshold, except that a failure
      mode of fail-open keeps its clean verdict: thresholding clients never see an unchecked file pass. */
  lemma UncleanIsReportedAboveThreshold(facts: Facts, policy: Policy, family: Family)
    ensures var (verdict, score) := VerdictOf(facts, policy, family);
            verdict != Clean <==> score >= Min(policy.blockThreshold, policy.suspiciousThreshold)
  {
  }

  // ----- two-level cache -----

  predicate FromAntivirus(f: Finding) { f.stage == "clamav" }

  predicate FromStructure(f: Finding) { f.stage != "clamav" && f.code !in REQUEST_DERIVED_CODES }

  /** What a cache may share between requests: not the findings that only describe a request. */
  predicate NotRequestDerived(f: Finding) { FromAntivirus(f) || FromStructure(f) }

  function Filter(fs: seq<Finding>, keep: Finding -> bool): seq<Finding> {
    if fs == [] then []
    else (if keep(fs[0]) then [fs[0]] else []) + Filter(fs[1..], keep)
  }

  lemma {:induction false} FilterContains(fs: seq<Finding>, keep: Finding -> bool)
    ensures forall f :: f in Filter(fs, keep) <==> f in fs && keep(f)
  {
    if fs != [] {
      FilterContains(fs[1..], keep);
      assert forall f :: f in fs <==> f == fs[0] || f in fs[1..];
    }
  }

  function Codes(fs: seq<Finding>): set<string> {
    set f | f in fs :: f.code
  }

  function Unseen(fs: seq<Finding>, seen: set<string>): seq<Finding> {
    if fs == [] then []
    else (if fs[0].code !in seen then [fs[0]] else []) + Unseen(fs[1..], seen)
  }

  lemma {:induction false} UnseenContains(fs: seq<Finding>, seen: set<string>)
    ensures forall f :: f in Unseen(fs, seen) <==> f in fs && f.code !in seen
  {
    if fs != [] {
      UnseenContains(fs[1..], seen);
      assert forall f :: f in fs <==> f == fs[0] || f in fs[1..];
    }
  }

  function StructuralHalf(facts: Facts): Facts {
    facts.(findings := Filter(facts.findings, FromStructure),
           failedStages := set s | s in facts.failedStages && s != "clamav")
  }

  function AvHalf(facts: Facts): Facts {
    Facts(Filter(facts.findings, FromAntivirus), "", false, true,
          set s | s in facts.failedStages && s == "clamav")
  }

  function Shareable(facts: Facts): Facts {
    facts.(findings := Filter(facts.findings, NotRequestDerived))
  }

  function Merge(self: Facts, other: Facts): Facts {
    Facts(self.findings + Unseen(other.findings, Codes(self.findings)),
          if self.detectedMime != "" then self.detectedMime else other.detectedMime,
          self.encrypted || other.encrypted,
          self.supported && other.supported,
          self.failedStages + other.failedStages)
  }

  /** What each half of the cache holds, and what a request may share: all but the two codes that only compare the file
      with what the request says of it. */
  lemma HalvesExactly(facts: Facts, f: Finding, stage: string)
    ensures f in AvHalf(facts).findings <==> f in facts.findings && f.stage == "clamav"
    ensures f in StructuralHalf(facts).findings <==>
            f in facts.findings && f.stage != "clamav" && f.code != "MIME_MISMATCH" && f.code != "EXT_MISMATCH"
    ensures f in Shareable(facts).findings <==>
            f in facts.findings && (f.stage == "clamav" || (f.code != "MIME_MISMATCH" && f.code != "EXT_MISMATCH"))
    ensures stage in AvHalf(facts).failedStages <==> stage in facts.failedStages && stage == "clamav"
    ensures stage in StructuralHalf(facts).failedStages <==> stage in facts.failedStages && stage != "clamav"
    ensures !AvHalf(facts).encrypted && AvHalf(facts).supported
    ensures Shareable(facts) == facts.(findings := Shareable(facts).findings)
  {
    FilterContains(facts.findings, FromAntivirus);
    FilterContains(facts.findings, FromStructure);
    FilterContains(facts.findings, NotRequestDerived);
  }

  /** What merging two halves keeps of both: every code, every failed stage, what could not be read; of findings that
      share a code, the one of the first half. */
  lemma MergedExactly(self: Facts, other: Facts, f: Finding, stage: string)
    ensures f in Merge(self, other).findings <==>
            f in self.findings || (f in other.findings && forall g :: g in self.findings ==> g.code != f.code)
    ensures stage in Merge(self, other).failedStages <==> stage in self.failedStages || stage in other.failedStages
    ensures Merge(self, other).encrypted <==> self.encrypted || other.encrypted
    ensures Merge(self, other).supported <==> self.supported && other.supported
    ensures Merge(self, other).detectedMime == if self.detectedMime == "" then other.detectedMime else self.detectedMime
  {
    UnseenContains(other.findings, Codes(self.findings));
  }

  /** One weight table: equal codes carry equal scores. */
  ghost predicate OneWeightTable(fs: seq<Finding>) {
    forall f, g :: f in fs && g in fs && f.code == g.code ==> f.score == g.score
  }

  lemma SameFindingsSameScore(a: seq<Finding>, b: seq<Finding>, family: Family)
    requires forall f :: f in a <==> f in b
    ensures Score(a, family) == Score(b, family)
  {
    ScoreIsSetLike(a, b, family);
  }

  lemma MatchInMerged(self: Facts, other: Facts, f: Finding) returns (g: Finding)
    requires OneWeightTable(self.findings + other.findings)
    requires f in self.findings + other.findings
    ensures g in Merge(self, other).findings && g.code == f.code && f.score == g.score
  {
    UnseenContains(other.findings, Codes(self.findings));
    g := f;
    if f !in self.findings && f.code in Codes(self.findings) {
      g :| g in self.findings && g.code == f.code;
      assert g in self.findings + other.findings;
    }
  }

  /** Dropping the repeated codes of the second half does not change the score. */
  lemma MergeScore(self: Facts, other: Facts, family: Family)
    requires OneWeightTable(self.findings + other.findings)
    ensures Score(Merge(self, other).findings, family) == Score(self.findings + other.findings, family)
  {
    var merged, both := Merge(self, other).findings, self.findings + other.findings;
    assert Covered(both, merged) by {
      forall f | f in both
        ensures exists g :: g in merged && g.code == f.code && f.score <= g.score
      {
        var g := MatchInMerged(self, other, f);
      }
    }
    assert Covered(merged, both) by {
      UnseenContains(other.findings, Codes(self.findings));
      forall f | f in merged
        ensures exists g :: g in both && g.code == f.code && f.score <= g.score
      {
        assert f in both;
      }
    }
    ScoreIsSetLike(merged, both, family);
  }

  /** A scan's facts, split over the two cache levels and put together again, give every tenant the
      verdict and the score of the original facts without their request-derived findings. */
  lemma CacheAgreesWithFullScan(facts: Facts, policy: Policy, family: Family)
    requires OneWeightTable(facts.findings)
    ensures VerdictOf(Merge(StructuralHalf(facts), AvHalf(facts)), policy, family)
            == VerdictOf(Shareable(facts), policy, family)
    ensures Merge(StructuralHalf(facts), AvHalf(facts)).detectedMime == facts.detectedMime
    ensures Merge(StructuralHalf(facts), AvHalf(facts)).failedStages == facts.failedStages
  {
    var s, a, whole := StructuralHalf(facts), AvHalf(facts), Shareable(facts);
    FilterContains(facts.findings, FromStructure);
    FilterContains(facts.findings, FromAntivirus);
    FilterContains(facts.findings, NotRequestDerived);
    MergeScore(s, a, family);
    SameFindingsSameScore(s.findings + a.findings, whole.findings, family);
    assert Merge(s, a).failedStages == facts.failedStages;
  }

  /** Refreshing the antivirus half from a new scan: the verdict is that of all structural and all
      new findings together, whatever codes the two halves share. */
  lemma RefreshAgreesWithUnion(cached: Facts, renewed: Facts, policy: Policy, family: Family)
    requires OneWeightTable(cached.findings + renewed.findings)
    ensures VerdictOf(Merge(cached, renewed), policy, family)
            == VerdictOf(Merge(cached, renewed).(findings := cached.findings + renewed.findings), policy, family)
  {
    hide Merge;
    MergeScore(cached, renewed, family);
  }

  lemma {:induction false} WeightlessSum(fams: set<string>, fs: seq<Finding>, family: Family)
    requires forall f :: f in fs ==> f.score == 0
    ensures SumPeaks(fams, fs, family) == 0
  {
    if fams != {} {
      var x :| x in fams;
      PeakIsMaximum(fs, family, x);
      SumPeaksRemove(fams, fs, family, x);
      WeightlessSum(fams - {x}, fs, family);
    }
  }

  lemma FilterOfTwo(f: Finding, g: Finding, keep: Finding -> bool)
    ensures Filter([f, g], keep) == (if keep(f) then [f] else []) + (if keep(g) then [g] else [])
  {
    var tail := [f, g][1..];
    assert tail == [g] && tail[1..] == [];
    assert Filter(tail[1..], keep) == [];
    assert Filter(tail, keep) == (if keep(g) then [g] else []) + [];
  }

  lemma SplitOfTwo(weak: Finding, strong: Finding)
    requires FromStructure(weak) && FromAntivirus(strong) && weak.code == strong.code
    ensures var facts := Facts([weak, strong], "", false, true, {});
            && Merge(StructuralHalf(facts), AvHalf(facts)).findings == [weak]
            && Shareable(facts).findings == [weak, strong]
  {
    FilterOfTwo(weak, strong, FromStructure);
    FilterOfTwo(weak, strong, FromAntivirus);
    FilterOfTwo(weak, strong, NotRequestDerived);
    var facts := Facts([weak, strong], "", false, true, {});
    assert StructuralHalf(facts).findings == [weak] && AvHalf(facts).findings == [strong];
    assert weak in [weak];
    var av, seen := [strong], Codes([weak]);
    assert av[1..] == [] && av[0].code in seen;
    assert Unseen(av, seen) == [] + Unseen(av[1..], seen) == [];
  }

  /** Without one weight table the split is not faithful: a weaker structural finding hides a
      stronger antivirus finding of the same code. */
  lemma SplitNeedsOneWeightTable(policy: Policy, family: Family) returns (facts: Facts)
    requires 1 <= policy.blockThreshold <= 100 && 1 <= policy.suspiciousThreshold <= 100
    ensures VerdictOf(Merge(StructuralHalf(facts), AvHalf(facts)), policy, family).0 == Clean
    ensures VerdictOf(Shareable(facts), policy, family).0 == Malicious
  {
    var weak, strong := Finding("structure", "STAGE_FAILED", 0), Finding("clamav", "STAGE_FAILED", 100);
    facts := Facts([weak, strong], "", false, true, {});
    SplitOfTwo(weak, strong);
    OneFindingCounts([weak, strong], strong, family);
    WeightlessSum(Families([weak], family), [weak], family);
  }
}
