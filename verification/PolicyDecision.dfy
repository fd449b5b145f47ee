/** The policy gate: the filter that a policy puts on findings, the decision taken over what is left,
    and the proof that the decision does not depend on the order of the findings. */
module PolicyDecision {
  import opened Sequences
  import opened Strings
  import D = PolicyDocument

  datatype Severity = Critical | High | Medium | Low | Info

  function Weight(s: Severity): nat {
    match s
    case Critical => 40
    case High => 20
    case Medium => 8
    case Low => 3
    case Info => 0
  }

  function SeverityRank(s: Severity): nat {
    match s
    case Critical => 0
    case High => 1
    case Medium => 2
    case Low => 3
    case Info => 4
  }

  function Name(s: Severity): string {
    match s
    case Critical => "critical"
    case High => "high"
    case Medium => "medium"
    case Low => "low"
    case Info => "info"
  }

  function SeverityNamed(name: string): (s: Severity)
    requires D.IsSeverity(name)
    ensures Name(s) == name
  {
    if name == "critical" then Critical
    else if name == "high" then High
    else if name == "medium" then Medium
    else if name == "low" then Low
    else Info
  }

  lemma NamesDiffer(a: Severity, b: Severity)
    ensures Name(a) == Name(b) <==> a == b
    ensures D.IsSeverity(Name(a))
  {
    var names := ["critical", "high", "medium", "low", "info"];
    assert |"critical"| == 8 && |"high"| == 4 && |"medium"| == 6 && |"low"| == 3 && "info"[0] == 'i'
        && "high"[0] == 'h';
    assert names[0] in names && names[1] in names && names[2] in names && names[3] in names && names[4] in names;
  }

  /** The entries of a finding's `extra` mapping that the gate and the store look at. */
  datatype Extra = Extra(package: Option<string>, license: Option<string>, ecosystem: Option<string>, baselined: bool,
                         overridden: Option<Severity>)

  /** A finding; `digest` is what recomputing its fingerprint gives. */
  datatype Finding = Finding(ruleId: string, title: string, severity: Severity, category: string, confidence: string,
                             file: string, line: int, extra: Extra, fingerprint: string, digest: string)

  // ----- the filter

  function ConfidenceRank(c: string): nat { if c == "medium" then 1 else if c == "high" then 2 else 0 }

  function Override(f: Finding, p: D.Policy): Finding
    requires D.ValidPolicy(p)
  {
    if f.ruleId !in p.overrides || p.overrides[f.ruleId] == Name(f.severity) then f
    else f.(severity := SeverityNamed(p.overrides[f.ruleId]), extra := f.extra.(overridden := Some(f.severity)),
        fingerprint := f.digest)
  }

  predicate Passes(f: Finding, p: D.Policy) {
    f.ruleId !in p.ignoreRules && ConfidenceRank(f.confidence) >= ConfidenceRank(p.minConfidence)
  }

  function Filtered(fs: seq<Finding>, p: D.Policy): seq<Finding>
    requires D.ValidPolicy(p)
  {
    if fs == [] then []
    else if Passes(fs[0], p) then [Override(fs[0], p)] + Filtered(fs[1..], p)
    else Filtered(fs[1..], p)
  }

  method FilterFindings(fs: seq<Finding>, p: D.Policy) returns (out: seq<Finding>)
    requires D.ValidPolicy(p)
    ensures out == Filtered(fs, p)
  {
    hide D.ValidPolicy, Override, ConfidenceRank;
    var floor := ConfidenceRank(p.minConfidence);
    var ignore := set r | r in p.ignoreRules;
    out := [];
    for k := 0 to |fs|
      invariant Filtered(fs, p) == out + Filtered(fs[k..], p)
    {
      assert fs[k..][0] == fs[k] && fs[k..][1..] == fs[k + 1..];
      if fs[k].ruleId in ignore {
        continue;
      }
      if ConfidenceRank(fs[k].confidence) < floor {
        continue;
      }
      out := out + [Override(fs[k], p)];
    }
  }

  lemma OverrideTwice(f: Finding, p: D.Policy)
    requires D.ValidPolicy(p)
    ensures Override(Override(f, p), p) == Override(f, p)
    ensures Passes(Override(f, p), p) == Passes(f, p)
  {
  }

  /** Filtering what has been filtered changes nothing. */
  lemma {:induction false} FilterIsIdempotent(fs: seq<Finding>, p: D.Policy)
    requires D.ValidPolicy(p)
    ensures Filtered(Filtered(fs, p), p) == Filtered(fs, p)
    ensures forall f | f in Filtered(fs, p) :: Passes(f, p) && Override(f, p) == f
  {
    hide D.ValidPolicy, Override, Passes;
    if fs != [] {
      FilterIsIdempotent(fs[1..], p);
      OverrideTwice(fs[0], p);
      if Passes(fs[0], p) {
        var rest := Filtered(fs[1..], p);
        var all := [Override(fs[0], p)] + rest;
        assert all[0] == Override(fs[0], p) && all[1..] == rest;
      }
    }
  }

  /** Findings on which the filter acts as the identity. */
  predicate Settled(fs: seq<Finding>, p: D.Policy)
    requires D.ValidPolicy(p)
  {
    forall f | f in fs :: Passes(f, p) && Override(f, p) == f
  }

  lemma {:induction false} SettledFilter(fs: seq<Finding>, p: D.Policy)
    requires D.ValidPolicy(p) && Settled(fs, p)
    ensures Filtered(fs, p) == fs
  {
    hide D.ValidPolicy, Override, Passes;
    if fs != [] {
      assert fs[0] in fs && forall f | f in fs[1..] :: f in fs;
      SettledFilter(fs[1..], p);
      assert [fs[0]] + fs[1..] == fs;
    }
  }

  // ----- the decision

  datatype Violation =
    | SeverityGate(name: string)
    | SeverityHit(ruleId: string, file: string, line: int, severity: Severity)
    | RiskScore(score: nat)
    | LicenseBlocked(ruleId: string, file: string, line: int, severity: Severity)
    | LicenseUnknown(ruleId: string, file: string, line: int, severity: Severity)
    | BlockedDependency(ruleId: string, file: string, line: int, severity: Severity)

  datatype Decision = Decision(passed: bool, violations: seq<Violation>, counts: map<string, nat>, score: nat)

  function Bit(b: bool): nat { if b then 1 else 0 }

  function SeverityCount(fs: seq<Finding>, s: Severity): nat {
    if fs == [] then 0 else Bit(fs[0].severity == s) + SeverityCount(fs[1..], s)
  }

  function Counts(fs: seq<Finding>): map<string, nat> {
    map["critical" := SeverityCount(fs, Critical), "high" := SeverityCount(fs, High),
        "medium" := SeverityCount(fs, Medium),
        "low" := SeverityCount(fs, Low), "info" := SeverityCount(fs, Info)]
  }

  function Score(fs: seq<Finding>): nat {
    if fs == [] then 0 else Weight(fs[0].severity) + Score(fs[1..])
  }

  /** The severity gates in the order of their names, against the counts. */
  function GateViolations(names: seq<string>, gates: map<string, nat>, counts: map<string, nat>): seq<Violation> {
    if names == [] then []
    else if names[0] in gates && names[0] in counts && counts[names[0]] > gates[names[0]] then
      [SeverityGate(names[0])] + GateViolations(names[1..], gates, counts)
    else GateViolations(names[1..], gates, counts)
  }

  const GATE_NAMES := ["critical", "high", "info", "low", "medium"]

  predicate Offends(f: Finding, failOn: string) {
    if failOn == "any" then f.severity != Info
    else if failOn == "none" then false
    else D.IsSeverity(failOn) && SeverityRank(f.severity) <= SeverityRank(SeverityNamed(failOn))
  }

  function SeverityHits(fs: seq<Finding>, failOn: string): seq<Violation> {
    if fs == [] then []
    else if Offends(fs[0], failOn) then
      [SeverityHit(fs[0].ruleId, fs[0].file, fs[0].line, fs[0].severity)] + SeverityHits(fs[1..], failOn)
    else SeverityHits(fs[1..], failOn)
  }

  function RiskViolations(score: nat, maximum: Option<nat>): seq<Violation> {
    if maximum.Some? && score > maximum.value then [RiskScore(score)] else []
  }

  function LicenseOf(f: Finding): string {
    if f.extra.license.Some? && f.extra.license.value != "" then f.extra.license.value else "UNKNOWN"
  }

  function ClassifyLicense(l: D.LicensePolicy, id: string): string {
    if id == "" || Upper(id) in ["UNKNOWN", "NONE", "NOASSERTION"] then "unknown"
    else if id in l.blocked then "blocked"
    else if id in l.warning then "warning"
    else if id in l.allowed then "allowed"
    else "unknown"
  }

  predicate HasBlockedLicense(f: Finding, l: D.LicensePolicy) {
    f.category == "license-compliance" && ClassifyLicense(l, LicenseOf(f)) == "blocked"
  }

  predicate HasRefusedUnknownLicense(f: Finding, l: D.LicensePolicy) {
    f.category == "license-compliance" && ClassifyLicense(l, LicenseOf(f)) == "unknown" && l.unknown == "block"
  }

  function LicenseViolations(fs: seq<Finding>, l: D.LicensePolicy): seq<Violation> {
    if fs == [] then []
    else if HasBlockedLicense(fs[0], l) then
      [LicenseBlocked(fs[0].ruleId, fs[0].file, fs[0].line, fs[0].severity)] + LicenseViolations(fs[1..], l)
    else if HasRefusedUnknownLicense(fs[0], l) then
      [LicenseUnknown(fs[0].ruleId, fs[0].file, fs[0].line, fs[0].severity)] + LicenseViolations(fs[1..], l)
    else LicenseViolations(fs[1..], l)
  }

  function PackageOf(f: Finding): string { if f.extra.package.Some? then Lower(f.extra.package.value) else "" }

  function EcosystemOf(f: Finding): string { if f.extra.ecosystem.Some? then Lower(f.extra.ecosystem.value) else "*" }

  /** The keys of the index of blocked packages: each block is entered under its own ecosystem and
      under the wildcard. */
  function BlockedIndex(blocks: seq<D.Block>): (index: map<(string, string), string>) {
    if blocks == [] then map[]
    else
      var last := blocks[|blocks| - 1];
      BlockedIndex(blocks[..|blocks| - 1])[(last.ecosystem, Lower(last.name)) := last.reason][("*",
          Lower(last.name)) := last.reason]
  }

  predicate IsBlocked(f: Finding, index: map<(string, string), string>) {
    f.category == "vulnerable-dependency" && ((EcosystemOf(f), PackageOf(f)) in index || ("*", PackageOf(f)) in index)
  }

  function Marker(f: Finding): string { EcosystemOf(f) + ":" + PackageOf(f) }

  /** The first finding of each blocked package. */
  function BlockedHits(fs: seq<Finding>, index: map<(string, string), string>, seen: set<string>): seq<Violation>
    decreases |fs|
  {
    if fs == [] then []
    else if IsBlocked(fs[0], index) && Marker(fs[0]) !in seen then
      [BlockedDependency(fs[0].ruleId, fs[0].file, fs[0].line, fs[0].severity)]
          + BlockedHits(fs[1..], index, seen + {Marker(fs[0])})
    else BlockedHits(fs[1..], index, seen)
  }

  /** The decision over findings that have been filtered. */
  function Judge(fs: seq<Finding>, p: D.Policy): Decision {
    var violations :=
      GateViolations(GATE_NAMES, p.gates, Counts(fs)) + SeverityHits(fs, p.failOn)
          + RiskViolations(Score(fs), p.maxRiskScore)
      + LicenseViolations(fs, p.license) + BlockedHits(fs, BlockedIndex(p.blocks), {});
    Decision(violations == [], violations, Counts(fs), Score(fs))
  }

  function Evaluate(gated: seq<Finding>, p: D.Policy): Decision
    requires D.ValidPolicy(p)
  {
    Judge(Filtered(gated, p), p)
  }

  // ----- the loops of the decision

  method CountSeverities(fs: seq<Finding>) returns (counts: map<string, nat>)
    ensures counts == Counts(fs)
  {
    var tally: map<Severity, nat> := map[Critical := 0, High := 0, Medium := 0, Low := 0, Info := 0];
    for k := 0 to |fs|
      invariant forall s | s in {Critical, High, Medium, Low, Info} ::
          s in tally && SeverityCount(fs, s) == tally[s] + SeverityCount(fs[k..], s)
    {
      CountStep(fs, k);
      hide SeverityCount;
      EverySeverity(fs[k].severity);
      tally := tally[fs[k].severity := tally[fs[k].severity] + 1];
    }
    assert fs[|fs|..] == [];
    counts := map["critical" := tally[Critical], "high" := tally[High], "medium" := tally[Medium], "low" := tally[Low],
        "info" := tally[Info]];
  }

  lemma EverySeverity(s: Severity)
    ensures s in {Critical, High, Medium, Low, Info}
  {
    match s {
      case Critical =>
      case High =>
      case Medium =>
      case Low =>
      case Info =>
    }
  }

  lemma CountStep(fs: seq<Finding>, k: nat)
    requires k < |fs|
    ensures forall s :: SeverityCount(fs[k..], s) == Bit(fs[k].severity == s) + SeverityCount(fs[k + 1..], s)
  {
    assert fs[k..][0] == fs[k] && fs[k..][1..] == fs[k + 1..];
  }

  method CheckGates(gates: map<string, nat>, counts: map<string, nat>) returns (violations: seq<Violation>)
    ensures violations == GateViolations(GATE_NAMES, gates, counts)
  {
    violations := CheckNamedGates(GATE_NAMES, gates, counts);
  }

  method CheckNamedGates(names: seq<string>, gates: map<string, nat>, counts: map<string,
          nat>) returns (violations: seq<Violation>)
    ensures violations == GateViolations(names, gates, counts)
  {
    violations := [];
    for k := 0 to |names|
      invariant GateViolations(names, gates, counts) == violations + GateViolations(names[k..], gates, counts)
    {
      assert names[k..][0] == names[k] && names[k..][1..] == names[k + 1..];
      if names[k] in gates && names[k] in counts && counts[names[k]] > gates[names[k]] {
        violations := violations + [SeverityGate(names[k])];
      }
    }
  }

  method CheckSeverities(fs: seq<Finding>, failOn: string) returns (violations: seq<Violation>)
    ensures violations == SeverityHits(fs, failOn)
  {
    hide Offends;
    violations := [];
    for k := 0 to |fs|
      invariant SeverityHits(fs, failOn) == violations + SeverityHits(fs[k..], failOn)
    {
      assert fs[k..][0] == fs[k] && fs[k..][1..] == fs[k + 1..];
      if Offends(fs[k], failOn) {
        violations := violations + [SeverityHit(fs[k].ruleId, fs[k].file, fs[k].line, fs[k].severity)];
      }
    }
  }

  method CheckLicenses(fs: seq<Finding>, l: D.LicensePolicy) returns (violations: seq<Violation>)
    ensures violations == LicenseViolations(fs, l)
  {
    hide ClassifyLicense, LicenseOf;
    violations := [];
    for k := 0 to |fs|
      invariant LicenseViolations(fs, l) == violations + LicenseViolations(fs[k..], l)
    {
      assert fs[k..][0] == fs[k] && fs[k..][1..] == fs[k + 1..];
      if fs[k].category == "license-compliance" {
        var classification := ClassifyLicense(l, LicenseOf(fs[k]));
        if classification == "blocked" {
          violations := violations + [LicenseBlocked(fs[k].ruleId, fs[k].file, fs[k].line, fs[k].severity)];
        } else if classification == "unknown" && l.unknown == "block" {
          violations := violations + [LicenseUnknown(fs[k].ruleId, fs[k].file, fs[k].line, fs[k].severity)];
        }
      }
    }
  }

  method IndexBlocks(blocks: seq<D.Block>) returns (index: map<(string, string), string>)
    ensures index == BlockedIndex(blocks)
  {
    index := map[];
    for k := 0 to |blocks|
      invariant index == BlockedIndex(blocks[..k])
    {
      assert blocks[..k + 1][..k] == blocks[..k];
      index := index[(blocks[k].ecosystem, Lower(blocks[k].name)) := blocks[k].reason];
      index := index[("*", Lower(blocks[k].name)) := blocks[k].reason];
    }
    assert blocks[..|blocks|] == blocks;
  }

  method CheckPackages(fs: seq<Finding>, index: map<(string, string), string>) returns (violations: seq<Violation>)
    ensures violations == BlockedHits(fs, index, {})
  {
    hide IsBlocked, Marker;
    violations := [];
    var seen: set<string> := {};
    for k := 0 to |fs|
      invariant BlockedHits(fs, index, {}) == violations + BlockedHits(fs[k..], index, seen)
    {
      assert fs[k..][0] == fs[k] && fs[k..][1..] == fs[k + 1..];
      if !IsBlocked(fs[k], index) {
        continue;
      }
      if Marker(fs[k]) in seen {
        continue;
      }
      seen := seen + {Marker(fs[k])};
      violations := violations + [BlockedDependency(fs[k].ruleId, fs[k].file, fs[k].line, fs[k].severity)];
    }
  }

  method EvaluatePolicy(gated: seq<Finding>, p: D.Policy) returns (d: Decision)
    requires D.ValidPolicy(p)
    ensures d == Evaluate(gated, p)
  {
    hide D.ValidPolicy, Filtered, Counts, Score, GateViolations, SeverityHits, LicenseViolations, BlockedIndex,
         BlockedHits;
    var findings := FilterFindings(gated, p);
    var counts := CountSeverities(findings);
    var score := Score(findings);
    var violations := CheckGates(p.gates, counts);
    var hits := CheckSeverities(findings, p.failOn);
    violations := violations + hits;
    if p.maxRiskScore.Some? && score > p.maxRiskScore.value {
      violations := violations + [RiskScore(score)];
    }
    var licenses := CheckLicenses(findings, p.license);
    violations := violations + licenses;
    var index := IndexBlocks(p.blocks);
    var packages := CheckPackages(findings, index);
    violations := violations + packages;
    d := Decision(violations == [], violations, counts, score);
  }

  // ----- the decision does not depend on the order of the findings

  function Total(fs: seq<Finding>, w: Finding -> nat): nat {
    if fs == [] then 0 else w(fs[0]) + Total(fs[1..], w)
  }

  lemma {:induction false} TotalConcat(a: seq<Finding>, b: seq<Finding>, w: Finding -> nat)
    ensures Total(a + b, w) == Total(a, w) + Total(b, w)
  {
    if a == [] {
      assert a + b == b;
    } else {
      assert (a + b)[1..] == a[1..] + b;
      TotalConcat(a[1..], b, w);
    }
  }

  lemma {:induction false} TotalPermutes(a: seq<Finding>, b: seq<Finding>, w: Finding -> nat)
    requires multiset(a) == multiset(b)
    ensures Total(a, w) == Total(b, w)
  {
    if a == [] {
      EmptyElsewhere(b);
    } else {
      var j := FrontElsewhere(a, b);
      TotalPermutes(a[1..], b[..j] + b[j + 1..], w);
      TotalTakesOut(b, j, w);
    }
  }

  lemma TotalTakesOut(b: seq<Finding>, j: nat, w: Finding -> nat)
    requires j < |b|
    ensures Total(b, w) == w(b[j]) + Total(b[..j] + b[j + 1..], w)
  {
    TotalConcat(b[..j], b[j..], w);
    TotalConcat(b[..j], b[j + 1..], w);
    assert b == b[..j] + b[j..] && b[j..][1..] == b[j + 1..];
  }

  function OfSeverity(s: Severity): Finding -> nat { (f: Finding) => Bit(f.severity == s) }

  const WEIGHTS: Finding -> nat := (f: Finding) => Weight(f.severity)

  function Offence(failOn: string): Finding -> nat { (f: Finding) => Bit(Offends(f, failOn)) }

  function LicenseCount(l: D.LicensePolicy): Finding -> nat {
    (f: Finding) => Bit(HasBlockedLicense(f, l) || HasRefusedUnknownLicense(f, l))
  }

  lemma {:induction false} CountIsTotal(fs: seq<Finding>, s: Severity)
    ensures SeverityCount(fs, s) == Total(fs, OfSeverity(s))
  {
    if fs != [] {
      CountIsTotal(fs[1..], s);
    }
  }

  lemma {:induction false} ScoreIsTotal(fs: seq<Finding>)
    ensures Score(fs) == Total(fs, WEIGHTS)
  {
    if fs != [] {
      ScoreIsTotal(fs[1..]);
    }
  }

  lemma {:induction false} HitsAreTotal(fs: seq<Finding>, failOn: string)
    ensures |SeverityHits(fs, failOn)| == Total(fs, Offence(failOn))
  {
    hide Offends;
    if fs != [] {
      HitsAreTotal(fs[1..], failOn);
    }
  }

  lemma {:induction false} LicensesAreTotal(fs: seq<Finding>, l: D.LicensePolicy)
    ensures |LicenseViolations(fs, l)| == Total(fs, LicenseCount(l))
  {
    hide HasBlockedLicense, HasRefusedUnknownLicense;
    if fs != [] {
      LicensesAreTotal(fs[1..], l);
    }
  }

  function Markers(fs: seq<Finding>, index: map<(string, string), string>): set<string> {
    set f | f in fs && IsBlocked(f, index) :: Marker(f)
  }

  /** One violation for each blocked package that has not been reported yet. */
  lemma {:induction false} BlockedHitsAreMarkers(fs: seq<Finding>, index: map<(string, string), string>,
          seen: set<string>)
    ensures |BlockedHits(fs, index, seen)| == |Markers(fs, index) - seen|
    decreases |fs|
  {
    hide IsBlocked, Marker, Markers;
    if fs == [] {
      NoMarkers(index);
    } else {
      MarkersOfFirst(fs, index);
      var m, rest := Marker(fs[0]), Markers(fs[1..], index);
      if IsBlocked(fs[0], index) && m !in seen {
        BlockedHitsAreMarkers(fs[1..], index, seen + {m});
        assert Markers(fs, index) - seen == (rest - (seen + {m})) + {m};
      } else {
        BlockedHitsAreMarkers(fs[1..], index, seen);
        assert Markers(fs, index) - seen == rest - seen;
      }
    }
  }

  lemma NoMarkers(index: map<(string, string), string>)
    ensures Markers([], index) == {}
  {
  }

  lemma MarkersOfFirst(fs: seq<Finding>, index: map<(string, string), string>)
    requires fs != []
    ensures Markers(fs, index) == Markers(fs[1..], index) + if IsBlocked(fs[0], index) then {Marker(fs[0])} else {}
  {
    hide IsBlocked, Marker;
    assert forall f :: f in fs <==> f == fs[0] || f in fs[1..];
  }

  lemma SameMarkers(a: seq<Finding>, b: seq<Finding>, index: map<(string, string), string>)
    requires multiset(a) == multiset(b)
    ensures Markers(a, index) == Markers(b, index)
  {
    assert forall f :: f in a <==> f in multiset(a);
    assert forall f :: f in b <==> f in multiset(b);
  }

  /** The same findings in another order pass or fail alike, with as many violations, the same counts
      and the same score. */
  lemma JudgeIgnoresOrder(a: seq<Finding>, b: seq<Finding>, p: D.Policy)
    requires multiset(a) == multiset(b)
    ensures Judge(a, p).passed == Judge(b, p).passed && |Judge(a, p).violations| == |Judge(b, p).violations|
    ensures Judge(a, p).counts == Judge(b, p).counts && Judge(a, p).score == Judge(b, p).score
  {
    var index := BlockedIndex(p.blocks);
    SameCounts(a, b);
    HitsAreTotal(a, p.failOn);
    HitsAreTotal(b, p.failOn);
    TotalPermutes(a, b, Offence(p.failOn));
    LicensesAreTotal(a, p.license);
    LicensesAreTotal(b, p.license);
    TotalPermutes(a, b, LicenseCount(p.license));
    BlockedHitsAreMarkers(a, index, {});
    BlockedHitsAreMarkers(b, index, {});
    SameMarkers(a, b, index);
    hide GateViolations, SeverityHits, LicenseViolations, BlockedHits, BlockedIndex, Counts, Score, Total, Markers;
  }

  lemma SameCounts(a: seq<Finding>, b: seq<Finding>)
    requires multiset(a) == multiset(b)
    ensures Counts(a) == Counts(b) && Score(a) == Score(b)
  {
    SameCount(a, b, Critical);
    SameCount(a, b, High);
    SameCount(a, b, Medium);
    SameCount(a, b, Low);
    SameCount(a, b, Info);
    ScoreIsTotal(a);
    ScoreIsTotal(b);
    TotalPermutes(a, b, WEIGHTS);
  }

  lemma SameCount(a: seq<Finding>, b: seq<Finding>, s: Severity)
    requires multiset(a) == multiset(b)
    ensures SeverityCount(a, s) == SeverityCount(b, s)
  {
    CountIsTotal(a, s);
    CountIsTotal(b, s);
    TotalPermutes(a, b, OfSeverity(s));
  }

  // ----- what the blocked packages are

  predicate NamesPackage(blocks: seq<D.Block>, package: string) { exists b | b in blocks :: Lower(b.name) == package }

  predicate NamesPackageIn(blocks: seq<D.Block>, ecosystem: string, package: string) {
    exists b | b in blocks :: Lower(b.name) == package && (b.ecosystem == ecosystem || b.ecosystem == "*")
  }

  lemma {:induction false} IndexKeys(blocks: seq<D.Block>, ecosystem: string, package: string)
    ensures ("*", package) in BlockedIndex(blocks) <==> NamesPackage(blocks, package)
    ensures (ecosystem, package) in BlockedIndex(blocks) ==> NamesPackage(blocks, package)
  {
    hide Lower;
    if blocks != [] {
      var front, last := blocks[..|blocks| - 1], blocks[|blocks| - 1];
      IndexKeys(front, ecosystem, package);
      assert forall b :: b in blocks <==> b in front || b == last;
    }
  }

  /** A block that names an ecosystem applies to every ecosystem: a finding is blocked exactly when some
      block has its package's name. */
  lemma {:induction false} BlocksIgnoreEcosystem(f: Finding, blocks: seq<D.Block>)
    requires f.category == "vulnerable-dependency"
    ensures IsBlocked(f, BlockedIndex(blocks)) <==> NamesPackage(blocks, PackageOf(f))
  {
    IndexKeys(blocks, EcosystemOf(f), PackageOf(f));
  }

  predicate ScopesAgree(f: Finding, blocks: seq<D.Block>) {
    IsBlocked(f, BlockedIndex(blocks)) <==> NamesPackageIn(blocks, EcosystemOf(f), PackageOf(f))
  }

  /** Some block names the package for every ecosystem. */
  predicate NamedEverywhere(blocks: seq<D.Block>, name: string) {
    exists c | c in blocks :: Lower(c.name) == name && c.ecosystem == "*"
  }

  /** Blocks mean what they say, for every finding, exactly when each package that some block names
      is also blocked for every ecosystem. */
  lemma BlocksAreScopedExactlyWhen(blocks: seq<D.Block>)
    ensures (forall f: Finding | f.category == "vulnerable-dependency" :: ScopesAgree(f, blocks))
       <==> (forall b | b in blocks :: NamedEverywhere(blocks, Lower(b.name)))
  {
    hide IsBlocked, BlockedIndex, Lower, NamesPackageIn;
    if forall b | b in blocks :: NamedEverywhere(blocks, Lower(b.name)) {
      forall f: Finding | f.category == "vulnerable-dependency" ensures ScopesAgree(f, blocks) {
        EverywhereAgrees(f, blocks);
      }
    }
    if forall f: Finding | f.category == "vulnerable-dependency" :: ScopesAgree(f, blocks) {
      forall b | b in blocks ensures NamedEverywhere(blocks, Lower(b.name)) {
        var f := AnywhereFinding(b.name);
        assert ScopesAgree(f, blocks);
        BlocksIgnoreEcosystem(f, blocks);
        AnywhereNamed(blocks, Lower(b.name));
      }
    }
  }

  lemma EverywhereAgrees(f: Finding, blocks: seq<D.Block>)
    requires f.category == "vulnerable-dependency"
    requires forall b | b in blocks :: NamedEverywhere(blocks, Lower(b.name))
    ensures ScopesAgree(f, blocks)
  {
    hide IsBlocked, BlockedIndex, Lower;
    BlocksIgnoreEcosystem(f, blocks);
  }

  /** A finding about a package that says nothing of an ecosystem. */
  function AnywhereFinding(name: string): (f: Finding)
    ensures f.category == "vulnerable-dependency" && EcosystemOf(f) == "*" && PackageOf(f) == Lower(name)
  {
    Finding("", "", High, "vulnerable-dependency", "high", "", 0, Extra(Some(name), None, None, false, None), "", "")
  }

  lemma AnywhereNamed(blocks: seq<D.Block>, name: string)
    ensures NamesPackageIn(blocks, "*", name) ==> NamedEverywhere(blocks, name)
  {
    hide Lower;
  }

  // ----- a threshold written as null

  predicate HasSeverityHit(violations: seq<Violation>) { exists v | v in violations :: v.SeverityHit? }

  lemma {:induction false} HitsOf(fs: seq<Finding>, failOn: string)
    ensures forall v | v in SeverityHits(fs, failOn) :: v.SeverityHit?
    ensures SeverityHits(fs, failOn) != [] <==> exists f | f in fs :: Offends(f, failOn)
  {
    hide Offends;
    if fs != [] {
      HitsOf(fs[1..], failOn);
      assert fs == [fs[0]] + fs[1..];
    }
  }

  lemma {:induction false} NoGateHits(names: seq<string>, gates: map<string, nat>, counts: map<string, nat>)
    ensures forall v | v in GateViolations(names, gates, counts) :: !v.SeverityHit?
  {
    if names != [] {
      NoGateHits(names[1..], gates, counts);
    }
  }

  lemma {:induction false} NoLicenseHits(fs: seq<Finding>, l: D.LicensePolicy)
    ensures forall v | v in LicenseViolations(fs, l) :: !v.SeverityHit?
  {
    hide HasBlockedLicense, HasRefusedUnknownLicense;
    if fs != [] {
      NoLicenseHits(fs[1..], l);
    }
  }

  lemma {:induction false} NoBlockHits(fs: seq<Finding>, index: map<(string, string), string>, seen: set<string>)
    ensures forall v | v in BlockedHits(fs, index, seen) :: !v.SeverityHit?
    decreases |fs|
  {
    hide IsBlocked, Marker;
    if fs != [] {
      NoBlockHits(fs[1..], index, if IsBlocked(fs[0], index) && Marker(fs[0]) !in seen then seen + {Marker(fs[0])}
          else seen);
    }
  }

  /** The verdict names a finding over the threshold exactly when one is over it. */
  lemma JudgeHits(fs: seq<Finding>, p: D.Policy)
    ensures HasSeverityHit(Judge(fs, p).violations) <==> exists f | f in fs :: Offends(f, p.failOn)
  {
    hide Offends, GateViolations, SeverityHits, LicenseViolations, BlockedHits, Counts, Score;
    HitsOf(fs, p.failOn);
    NoGateHits(GATE_NAMES, p.gates, Counts(fs));
    NoLicenseHits(fs, p.license);
    NoBlockHits(fs, BlockedIndex(p.blocks), {});
    var hits := SeverityHits(fs, p.failOn);
    if hits != [] { assert hits[0] in Judge(fs, p).violations; }
  }

  lemma {:induction false} FilterIgnoresThreshold(fs: seq<Finding>, p: D.Policy, q: D.Policy)
    requires D.ValidPolicy(p) && D.ValidPolicy(q) && q == p.(failOn := q.failOn)
    ensures Filtered(fs, q) == Filtered(fs, p)
  {
    hide D.ValidPolicy;
    if fs != [] {
      FilterIgnoresThreshold(fs[1..], p, q);
    }
  }

  /** A document that says `fail_on: null` is accepted, and its gate lets every finding through the
      threshold; with the line deleted, critical and high findings fail it. */
  lemma NullThresholdOpensTheGate(data: seq<D.Entry>, gated: seq<Finding>)
    requires D.Get(data, "fail_on") == Some(D.Null) && D.FromDict(data).Ok?
    ensures D.FromDict(D.Without(data, "fail_on")).Ok?
    ensures D.ValidPolicy(D.FromDict(data).policy) && D.ValidPolicy(D.FromDict(D.Without(data, "fail_on")).policy)
    ensures var p, q := D.FromDict(data).policy, D.FromDict(D.Without(data, "fail_on")).policy;
            && !HasSeverityHit(Evaluate(gated, p).violations)
            && (HasSeverityHit(Evaluate(gated, q).violations)
                <==> exists f | f in Filtered(gated, p) :: f.severity == Critical || f.severity == High)
  {
    hide D.FromDict, D.Get, D.Without, D.ValidPolicy, Filtered, HasSeverityHit, Judge;
    D.NullThreshold(data);
    D.AcceptedIsValid(data);
    D.AcceptedIsValid(D.Without(data, "fail_on"));
    var p, q := D.FromDict(data).policy, D.FromDict(D.Without(data, "fail_on")).policy;
    FilterIgnoresThreshold(gated, p, q);
    JudgeHits(Filtered(gated, p), p);
    JudgeHits(Filtered(gated, p), q);
    forall f: Finding ensures Offends(f, "high") <==> f.severity == Critical || f.severity == High { OverHigh(f); }
    hide Offends;
  }

  lemma OverHigh(f: Finding)
    ensures Offends(f, "high") <==> f.severity == Critical || f.severity == High
    ensures !Offends(f, "none")
  {
  }
}
