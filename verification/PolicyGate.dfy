/** What it takes to pass a policy, stated on the findings themselves: which findings the filter keeps,
    how many violations each part of the decision adds, and exactly when there is none. */
module PolicyGate {
  import opened Sequences
  import opened Strings
  import opened PolicyDecision
  import D = PolicyDocument

  // ----- the filter

  /** The finding is kept exactly when its rule is not ignored and its confidence is no lower than the
      floor; an unheard-of confidence counts as low. */
  lemma KeptExactlyWhen(f: Finding, p: D.Policy)
    requires D.ValidPolicy(p)
    ensures Passes(f, p) <==>
            && f.ruleId !in p.ignoreRules
            && (p.minConfidence == "medium" ==> f.confidence == "medium" || f.confidence == "high")
            && (p.minConfidence == "high" ==> f.confidence == "high")
  {
    FloorIsKnown(p);
  }

  lemma FloorIsKnown(p: D.Policy)
    requires D.ValidPolicy(p)
    ensures p.minConfidence == "low" || p.minConfidence == "medium" || p.minConfidence == "high"
  {
    assert D.IsConfidence(p.minConfidence);
  }

  /** A kept finding has the severity its rule is overridden to; it is marked with its old severity and
      gets a new fingerprint exactly when that changes it. */
  lemma OverriddenSeverity(f: Finding, p: D.Policy)
    requires D.ValidPolicy(p)
    ensures var g, changed := Override(f, p), f.ruleId in p.overrides && p.overrides[f.ruleId] != Name(f.severity);
            && Name(g.severity) == (if f.ruleId in p.overrides then p.overrides[f.ruleId] else Name(f.severity))
            && g.extra.overridden == (if changed then Some(f.severity) else f.extra.overridden)
            && g.fingerprint == (if changed then f.digest else f.fingerprint)
            && g == f.(severity := g.severity, extra := f.extra.(overridden := g.extra.overridden),
                       fingerprint := g.fingerprint)
  {
    hide D.IsSeverity;
  }

  // ----- counting

  function SeveritiesOf(fs: seq<Finding>): (r: seq<Severity>)
    ensures |r| == |fs| && forall i | 0 <= i < |fs| :: r[i] == fs[i].severity
  {
    seq(|fs|, i requires 0 <= i < |fs| => fs[i].severity)
  }

  /** How many of the findings have the severity. */
  function Many(fs: seq<Finding>, s: Severity): nat { multiset(SeveritiesOf(fs))[s] }

  lemma ManyStep(fs: seq<Finding>, s: Severity)
    requires fs != []
    ensures Many(fs, s) == Bit(fs[0].severity == s) + Many(fs[1..], s)
  {
    assert SeveritiesOf(fs) == [fs[0].severity] + SeveritiesOf(fs[1..]);
  }

  lemma {:induction false} CountIsMany(fs: seq<Finding>, s: Severity)
    ensures SeverityCount(fs, s) == Many(fs, s)
  {
    if fs != [] {
      ManyStep(fs, s);
      CountIsMany(fs[1..], s);
    }
    hide Many;
  }

  /** The risk score: 40 for each critical finding, 20 for high, 8 for medium and 3 for low. */
  function Risk(fs: seq<Finding>): nat {
    40 * Many(fs, Critical) + 20 * Many(fs, High) + 8 * Many(fs, Medium) + 3 * Many(fs, Low)
  }

  lemma {:induction false} ScoreIsRisk(fs: seq<Finding>)
    ensures Score(fs) == Risk(fs)
  {
    if fs != [] {
      ScoreIsRisk(fs[1..]);
      ManyStep(fs, Critical);
      ManyStep(fs, High);
      ManyStep(fs, Medium);
      ManyStep(fs, Low);
      hide Many;
    }
  }

  // ----- the five parts

  /** There are more findings of the severity than its gate allows. */
  predicate Over(fs: seq<Finding>, gates: map<string, nat>, name: string, s: Severity) {
    name in gates && Many(fs, s) > gates[name]
  }

  function GatesExceeded(fs: seq<Finding>, gates: map<string, nat>): nat {
    Bit(Over(fs, gates, "critical", Critical)) + Bit(Over(fs, gates, "high", High))
    + Bit(Over(fs, gates, "medium", Medium)) + Bit(Over(fs, gates, "low", Low)) + Bit(Over(fs, gates, "info", Info))
  }

  /** How many findings are at or above the threshold. */
  function Offending(fs: seq<Finding>, failOn: string): nat {
    match failOn
    case "critical" => Many(fs, Critical)
    case "high" => Many(fs, Critical) + Many(fs, High)
    case "medium" => Many(fs, Critical) + Many(fs, High) + Many(fs, Medium)
    case "low" => Many(fs, Critical) + Many(fs, High) + Many(fs, Medium) + Many(fs, Low)
    case "any" => Many(fs, Critical) + Many(fs, High) + Many(fs, Medium) + Many(fs, Low)
    case _ => 0
  }

  predicate TooRisky(fs: seq<Finding>, maximum: Option<nat>) { maximum.Some? && Risk(fs) > maximum.value }

  /** No licence is named. */
  predicate Placeholder(id: string) { Upper(id) == "UNKNOWN" || Upper(id) == "NONE" || Upper(id) == "NOASSERTION" }

  /** A licence finding whose licence is blocked or, when unknown licences block, not named or not
      listed. */
  predicate Refused(f: Finding, l: D.LicensePolicy) {
    && f.category == "license-compliance"
    && match f.extra.license
       case None => l.unknown == "block"
       case Some(id) =>
         if id == "" || Placeholder(id) then l.unknown == "block"
         else id in l.blocked || (l.unknown == "block" && id !in l.warning && id !in l.allowed)
  }

  function Refusal(l: D.LicensePolicy): Finding -> nat { (f: Finding) => Bit(Refused(f, l)) }

  /** A dependency finding about a package that a block names, letter case aside. */
  predicate Named(f: Finding, blocks: seq<D.Block>) {
    && f.category == "vulnerable-dependency"
    && exists b | b in blocks :: Lower(b.name) == if f.extra.package.Some? then Lower(f.extra.package.value) else ""
  }

  /** The blocked packages among the findings, each with its ecosystem. */
  function BlockedPackages(fs: seq<Finding>, blocks: seq<D.Block>): set<string> {
    set f | f in fs && Named(f, blocks) :: Marker(f)
  }

  lemma GateStep(names: seq<string>, gates: map<string, nat>, fs: seq<Finding>, s: Severity)
    requires names != [] && names[0] == Name(s)
    ensures |GateViolations(names, gates, Counts(fs))|
         == Bit(Over(fs, gates, names[0], s)) + |GateViolations(names[1..], gates, Counts(fs))|
  {
    CountOfName(fs, s);
    hide Counts, Many;
  }

  lemma CountOfName(fs: seq<Finding>, s: Severity)
    ensures Name(s) in Counts(fs) && Counts(fs)[Name(s)] == Many(fs, s)
  {
    CountIsMany(fs, s);
    hide SeverityCount, Many;
    match s {
      case Critical =>
      case High =>
      case Medium =>
      case Low =>
      case Info =>
    }
  }

  lemma GatesAdd(fs: seq<Finding>, gates: map<string, nat>)
    ensures |GateViolations(GATE_NAMES, gates, Counts(fs))| == GatesExceeded(fs, gates)
  {
    GateStep(GATE_NAMES, gates, fs, Critical);
    GateStep(["high", "info", "low", "medium"], gates, fs, High);
    GateStep(["info", "low", "medium"], gates, fs, Info);
    GateStep(["low", "medium"], gates, fs, Low);
    GateStep(["medium"], gates, fs, Medium);
    assert GATE_NAMES[1..] == ["high", "info", "low", "medium"];
    assert ["high", "info", "low", "medium"][1..] == ["info", "low", "medium"];
    assert ["info", "low", "medium"][1..] == ["low", "medium"] && ["low", "medium"][1..] == ["medium"];
    assert GateViolations(["medium"][1..], gates, Counts(fs)) == [];
    hide Over, Counts;
  }

  lemma {:induction false} HitsAdd(fs: seq<Finding>, failOn: string)
    requires D.IsFailOn(failOn)
    ensures |SeverityHits(fs, failOn)| == Offending(fs, failOn)
  {
    if fs != [] {
      HitsAdd(fs[1..], failOn);
      ManyStep(fs, Critical);
      ManyStep(fs, High);
      ManyStep(fs, Medium);
      ManyStep(fs, Low);
      OffendsExactlyWhen(fs[0], failOn);
      hide Many, Offends;
    }
  }

  lemma OffendsExactlyWhen(f: Finding, failOn: string)
    requires D.IsFailOn(failOn)
    ensures Offends(f, failOn) <==>
            match failOn
            case "critical" => f.severity == Critical
            case "high" => f.severity == Critical || f.severity == High
            case "medium" => f.severity == Critical || f.severity == High || f.severity == Medium
            case "low" => f.severity != Info
            case "any" => f.severity != Info
            case _ => false
  {
  }

  lemma LicenseRefused(f: Finding, l: D.LicensePolicy)
    ensures HasBlockedLicense(f, l) || HasRefusedUnknownLicense(f, l) <==> Refused(f, l)
  {
    ClassOfLicense(l, LicenseOf(f));
    UnknownIsPlaceholder();
    hide ClassifyLicense, Placeholder;
  }

  lemma UnknownIsPlaceholder()
    ensures Placeholder("UNKNOWN")
  {
    assert Upper("UNKNOWN") == "UNKNOWN";
  }

  lemma ClassOfLicense(l: D.LicensePolicy, id: string)
    ensures var class_, unnamed := ClassifyLicense(l, id), id == "" || Placeholder(id);
            && (class_ == "blocked" <==> !unnamed && id in l.blocked)
            && (class_ == "unknown" <==> unnamed || (id !in l.blocked && id !in l.warning && id !in l.allowed))
  {
    assert |"allowed"| == 7 && |"warning"| == 7 && "unknown"[0] == 'u' && "blocked"[0] == 'b';
    assert "warning"[0] == 'w' && "allowed"[0] == 'a';
    hide Upper;
  }

  lemma {:induction false} LicensesAdd(fs: seq<Finding>, l: D.LicensePolicy)
    ensures |LicenseViolations(fs, l)| == Total(fs, Refusal(l))
  {
    hide HasBlockedLicense, HasRefusedUnknownLicense, Refused;
    if fs != [] {
      LicenseRefused(fs[0], l);
      LicensesAdd(fs[1..], l);
    }
  }

  lemma PackagesAdd(fs: seq<Finding>, blocks: seq<D.Block>)
    ensures |BlockedHits(fs, BlockedIndex(blocks), {})| == |BlockedPackages(fs, blocks)|
  {
    hide IsBlocked, Marker, BlockedIndex, Named;
    var index := BlockedIndex(blocks);
    BlockedHitsAreMarkers(fs, index, {});
    forall f | f in fs ensures IsBlocked(f, index) <==> Named(f, blocks) { BlockedByName(f, blocks); }
    assert Markers(fs, index) - {} == BlockedPackages(fs, blocks);
  }

  lemma BlockedByName(f: Finding, blocks: seq<D.Block>)
    ensures IsBlocked(f, BlockedIndex(blocks)) <==> Named(f, blocks)
  {
    if f.category == "vulnerable-dependency" { BlocksIgnoreEcosystem(f, blocks); }
    hide BlockedIndex, Lower;
  }

  // ----- the decision

  /** How many violations each part of the decision adds. */
  lemma ViolationsAdd(gated: seq<Finding>, p: D.Policy)
    requires D.ValidPolicy(p)
    ensures var fs := Filtered(gated, p);
            |Evaluate(gated, p).violations|
            == GatesExceeded(fs, p.gates) + Offending(fs, p.failOn) + Bit(TooRisky(fs, p.maxRiskScore))
               + Total(fs, Refusal(p.license)) + |BlockedPackages(fs, p.blocks)|
  {
    var fs := Filtered(gated, p);
    GatesAdd(fs, p.gates);
    HitsAdd(fs, p.failOn);
    ScoreIsRisk(fs);
    LicensesAdd(fs, p.license);
    PackagesAdd(fs, p.blocks);
    hide Filtered, GateViolations, SeverityHits, LicenseViolations, BlockedHits, BlockedIndex, Counts, Score, Total,
         GatesExceeded, Offending, Risk, BlockedPackages, Refusal;
  }

  /** No finding is at or above the threshold. */
  predicate BelowThreshold(fs: seq<Finding>, failOn: string) {
    forall f | f in fs ::
      match failOn
      case "critical" => f.severity != Critical
      case "high" => f.severity != Critical && f.severity != High
      case "medium" => f.severity == Low || f.severity == Info
      case "low" => f.severity == Info
      case "any" => f.severity == Info
      case _ => true
  }

  /** The findings pass exactly when no gate is exceeded, none is at or above the threshold, the risk
      score is within its limit, no licence is refused and no package is blocked. */
  lemma PassedExactlyWhen(gated: seq<Finding>, p: D.Policy)
    requires D.ValidPolicy(p)
    ensures var fs := Filtered(gated, p);
            Evaluate(gated, p).passed <==>
            && ("critical" in p.gates ==> Many(fs, Critical) <= p.gates["critical"])
            && ("high" in p.gates ==> Many(fs, High) <= p.gates["high"])
            && ("medium" in p.gates ==> Many(fs, Medium) <= p.gates["medium"])
            && ("low" in p.gates ==> Many(fs, Low) <= p.gates["low"])
            && ("info" in p.gates ==> Many(fs, Info) <= p.gates["info"])
            && BelowThreshold(fs, p.failOn)
            && (p.maxRiskScore.Some? ==> Risk(fs) <= p.maxRiskScore.value)
            && (forall f | f in fs :: !Refused(f, p.license))
            && (forall f | f in fs :: !Named(f, p.blocks))
  {
    var fs := Filtered(gated, p);
    ViolationsAdd(gated, p);
    NoneOffends(fs, p.failOn);
    NoneRefused(fs, p.license);
    NoneNamed(fs, p.blocks);
    PassedMeansNoViolation(gated, p);
    hide Filtered, Evaluate, Offending, BelowThreshold, Many, Risk, Refusal, BlockedPackages, Refused, Named, Total;
  }

  lemma PassedMeansNoViolation(gated: seq<Finding>, p: D.Policy)
    requires D.ValidPolicy(p)
    ensures Evaluate(gated, p).passed <==> |Evaluate(gated, p).violations| == 0
  {
    hide Filtered;
  }

  lemma NoneOffends(fs: seq<Finding>, failOn: string)
    requires D.IsFailOn(failOn)
    ensures Offending(fs, failOn) == 0 <==> BelowThreshold(fs, failOn)
  {
    NoneHas(fs, Critical);
    NoneHas(fs, High);
    NoneHas(fs, Medium);
    NoneHas(fs, Low);
    hide Many;
  }

  lemma NoneHas(fs: seq<Finding>, s: Severity)
    ensures Many(fs, s) == 0 <==> forall f | f in fs :: f.severity != s
  {
    var r := SeveritiesOf(fs);
    assert s in r <==> multiset(r)[s] > 0;
    if f :| f in fs && f.severity == s {
      var i :| 0 <= i < |fs| && fs[i] == f;
      assert r[i] == s;
    }
  }

  lemma {:induction false} NoneRefused(fs: seq<Finding>, l: D.LicensePolicy)
    ensures Total(fs, Refusal(l)) == 0 <==> forall f | f in fs :: !Refused(f, l)
  {
    hide Refused;
    if fs != [] {
      NoneRefused(fs[1..], l);
      assert fs == [fs[0]] + fs[1..];
    }
  }

  lemma NoneNamed(fs: seq<Finding>, blocks: seq<D.Block>)
    ensures |BlockedPackages(fs, blocks)| == 0 <==> forall f | f in fs :: !Named(f, blocks)
  {
    hide Named, Marker;
    if f :| f in fs && Named(f, blocks) { assert Marker(f) in BlockedPackages(fs, blocks); }
  }
}
