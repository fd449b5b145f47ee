/** From the engines' findings to the stored scan and back: the filter, the de-duplication and the
    baseline split at the end of a scan, the rows that are stored, and the decision recomputed from
    them, which is the decision the scan took. */
module ScanReplay {
  import opened Sequences
  import opened Strings
  import opened PolicyDecision
  import D = PolicyDocument

  // ----- the end of a scan

  /** What the configuration contributes. */
  datatype Config = Config(ignoreRules: seq<string>, minSeverity: string, baselineApplied: bool)

  /** A name that is no severity lets every finding through. */
  predicate SeverityAtLeast(s: Severity, minimum: string) {
    D.IsSeverity(minimum) ==> SeverityRank(s) <= SeverityRank(SeverityNamed(minimum))
  }

  predicate Configured(f: Finding, c: Config) {
    f.ruleId !in c.ignoreRules && SeverityAtLeast(f.severity, c.minSeverity)
  }

  function ByConfig(fs: seq<Finding>, c: Config): (r: seq<Finding>)
    ensures forall f | f in r :: f in fs
  {
    if fs == [] then []
    else if Configured(fs[0], c) then [fs[0]] + ByConfig(fs[1..], c)
    else ByConfig(fs[1..], c)
  }

  /** The first finding of each fingerprint that has not been seen. */
  function Deduped(fs: seq<Finding>, seen: set<string>): (r: seq<Finding>)
    ensures forall f | f in r :: f in fs && f.fingerprint !in seen
    ensures forall i, j | 0 <= i < j < |r| :: r[i].fingerprint != r[j].fingerprint
    decreases |fs|
  {
    if fs == [] then []
    else if fs[0].fingerprint in seen then Deduped(fs[1..], seen)
    else [fs[0]] + Deduped(fs[1..], seen + {fs[0].fingerprint})
  }

  datatype BaselineEntry = BaselineEntry(fingerprint: string, expiresAt: Option<real>)

  predicate IsExpired(e: BaselineEntry, now: real) { e.expiresAt.Some? && e.expiresAt.value <= now }

  function Active(entries: seq<BaselineEntry>, now: real): set<string> {
    set e | e in entries && !IsExpired(e, now) :: e.fingerprint
  }

  function Expired(entries: seq<BaselineEntry>, now: real): set<string> {
    set e | e in entries && IsExpired(e, now) :: e.fingerprint
  }

  function NotIn(fs: seq<Finding>, fingerprints: set<string>): seq<Finding>
  {
    if fs == [] then []
    else if fs[0].fingerprint in fingerprints then NotIn(fs[1..], fingerprints)
    else [fs[0]] + NotIn(fs[1..], fingerprints)
  }

  function In(fs: seq<Finding>, fingerprints: set<string>): seq<Finding>
  {
    if fs == [] then []
    else if fs[0].fingerprint in fingerprints then [fs[0]] + In(fs[1..], fingerprints)
    else In(fs[1..], fingerprints)
  }

  function Lapsed(fs: seq<Finding>, active: set<string>, expired: set<string>): seq<Finding> {
    if fs == [] then []
    else if fs[0].fingerprint !in active && fs[0].fingerprint in expired then [fs[0]] + Lapsed(fs[1..], active, expired)
    else Lapsed(fs[1..], active, expired)
  }

  function Unmatched(entries: seq<BaselineEntry>, present: set<string>): seq<BaselineEntry> {
    if entries == [] then []
    else if entries[0].fingerprint in present then Unmatched(entries[1..], present)
    else [entries[0]] + Unmatched(entries[1..], present)
  }

  datatype Diff = Diff(gating: seq<Finding>, suppressed: seq<Finding>, expired: seq<Finding>, fixed: seq<BaselineEntry>)

  function Fingerprints(fs: seq<Finding>): set<string> { set f | f in fs :: f.fingerprint }

  function DiffOf(fs: seq<Finding>, entries: seq<BaselineEntry>, now: real): Diff {
    var active := Active(entries, now);
    Diff(NotIn(fs, active), In(fs, active), Lapsed(fs, active, Expired(entries, now)),
        Unmatched(entries, Fingerprints(fs)))
  }

  lemma {:induction false} DiffAppend(fs: seq<Finding>, f: Finding, active: set<string>, expired: set<string>)
    ensures NotIn(fs + [f], active) == if f.fingerprint in active then NotIn(fs, active) else NotIn(fs, active) + [f]
    ensures In(fs + [f], active) == if f.fingerprint in active then In(fs, active) + [f] else In(fs, active)
    ensures Lapsed(fs + [f], active, expired) ==
            if f.fingerprint !in active && f.fingerprint in expired then Lapsed(fs, active, expired) + [f]
                else Lapsed(fs, active, expired)
  {
    if fs == [] {
      assert ([] + [f])[1..] == [];
    } else {
      assert (fs + [f])[1..] == fs[1..] + [f];
      DiffAppend(fs[1..], f, active, expired);
    }
  }

  method DiffBaseline(fs: seq<Finding>, entries: seq<BaselineEntry>, now: real) returns (d: Diff)
    ensures d == DiffOf(fs, entries, now)
  {
    var active := Active(entries, now);
    var lapsed := Expired(entries, now);
    DiffEmpty(active, lapsed);
    hide Active, Expired, NotIn, In, Lapsed, Fingerprints;
    var gating: seq<Finding>, suppressed: seq<Finding>, expired: seq<Finding>, present: set<string> := [], [], [], {};
    for k := 0 to |fs|
      invariant gating == NotIn(fs[..k], active)
      invariant suppressed == In(fs[..k], active)
      invariant expired == Lapsed(fs[..k], active, lapsed)
      invariant present == Fingerprints(fs[..k])
    {
      DiffAppend(fs[..k], fs[k], active, lapsed);
      FingerprintsAppend(fs[..k], fs[k]);
      assert fs[..k + 1] == fs[..k] + [fs[k]];
      present := present + {fs[k].fingerprint};
      if fs[k].fingerprint in active {
        suppressed := suppressed + [fs[k]];
      } else if fs[k].fingerprint in lapsed {
        expired := expired + [fs[k]];
        gating := gating + [fs[k]];
      } else {
        gating := gating + [fs[k]];
      }
    }
    assert fs[..|fs|] == fs;
    d := Diff(gating, suppressed, expired, Unmatched(entries, present));
  }

  lemma DiffEmpty(active: set<string>, lapsed: set<string>)
    ensures NotIn([], active) == [] && In([], active) == [] && Lapsed([], active, lapsed) == []
        && Fingerprints([]) == {}
  {
  }

  /** The entry accepts the finding: it has its fingerprint and no expiry, or a later one. */
  predicate Accepts(e: BaselineEntry, f: Finding, now: real) {
    e.fingerprint == f.fingerprint && (e.expiresAt.None? || now < e.expiresAt.value)
  }

  /** The split loses and repeats nothing: every finding is new or suppressed, what is suppressed is
      what an unexpired entry accepts, the lapsed findings are the new ones that an expired entry is for,
      and an entry is fixed exactly when no finding has its fingerprint. */
  lemma {:induction false} BaselineSplit(fs: seq<Finding>, entries: seq<BaselineEntry>, now: real)
    ensures var d := DiffOf(fs, entries, now);
            && multiset(fs) == multiset(d.gating) + multiset(d.suppressed)
            && (forall f | f in fs :: f in d.suppressed <==> exists e | e in entries :: Accepts(e, f, now))
            && (forall f | f in fs :: f in d.expired <==>
                f in d.gating && exists e | e in entries :: e.fingerprint == f.fingerprint)
            && (forall e | e in entries :: e in d.fixed <==> forall f | f in fs :: f.fingerprint != e.fingerprint)
  {
    var active, expired := Active(entries, now), Expired(entries, now);
    SplitByActive(fs, active);
    InMembers(fs, active);
    LapsedMembers(fs, active, expired);
    UnmatchedMembers(entries, Fingerprints(fs));
    hide In, NotIn, Lapsed, Unmatched;
  }

  lemma {:induction false} LapsedMembers(fs: seq<Finding>, active: set<string>, expired: set<string>)
    ensures forall f :: f in Lapsed(fs, active, expired) <==>
                        f in fs && f.fingerprint !in active && f.fingerprint in expired
  {
    if fs != [] {
      LapsedMembers(fs[1..], active, expired);
      assert forall f :: f in fs <==> f == fs[0] || f in fs[1..];
    }
  }

  lemma {:induction false} UnmatchedMembers(entries: seq<BaselineEntry>, present: set<string>)
    ensures forall e :: e in Unmatched(entries, present) <==> e in entries && e.fingerprint !in present
  {
    if entries != [] {
      UnmatchedMembers(entries[1..], present);
      assert forall e :: e in entries <==> e == entries[0] || e in entries[1..];
    }
  }

  lemma {:induction false} SplitByActive(fs: seq<Finding>, active: set<string>)
    ensures multiset(fs) == multiset(NotIn(fs, active)) + multiset(In(fs, active))
  {
    if fs != [] {
      SplitByActive(fs[1..], active);
      assert fs == [fs[0]] + fs[1..];
    }
  }

  lemma FingerprintsAppend(fs: seq<Finding>, f: Finding)
    ensures Fingerprints(fs + [f]) == Fingerprints(fs) + {f.fingerprint}
  {
    assert forall g :: g in fs + [f] <==> g in fs || g == f;
  }

  /** Marks the suppressed findings of the scan. */
  function Marked(fs: seq<Finding>, active: set<string>): (r: seq<Finding>)
    ensures |r| == |fs|
    ensures forall i | 0 <= i < |fs| :: r[i] == if fs[i].fingerprint in active then
        fs[i].(extra := fs[i].extra.(baselined := true)) else fs[i]
  {
    seq(|fs|, i requires 0 <= i < |fs| => if fs[i].fingerprint in active then
        fs[i].(extra := fs[i].extra.(baselined := true)) else fs[i])
  }

  /** What a scan returns: every finding, marked, and the ones the gate looks at when a baseline is in effect. */
  datatype ScanResult = ScanResult(findings: seq<Finding>, newFindings: seq<Finding>, baselineApplied: bool)

  function Gating(r: ScanResult): seq<Finding> { if r.baselineApplied then r.newFindings else r.findings }

  function EndOfScan(all: seq<Finding>, c: Config, p: D.Policy, entries: seq<BaselineEntry>, now: real): ScanResult
    requires D.ValidPolicy(p)
  {
    var deduped := Deduped(Filtered(ByConfig(all, c), p), {});
    var used := if c.baselineApplied then entries else [];
    ScanResult(Marked(deduped, Active(used, now)), NotIn(deduped, Active(used, now)), c.baselineApplied)
  }

  method RunScanTail(all: seq<Finding>, c: Config, p: D.Policy, entries: seq<BaselineEntry>,
          now: real) returns (r: ScanResult)
    requires D.ValidPolicy(p)
    ensures r == EndOfScan(all, c, p, entries, now)
  {
    hide D.ValidPolicy, Filtered, ByConfig, Deduped, Marked, NotIn, In, Active, Lapsed, Expired, Unmatched,
         Fingerprints;
    var filtered := FilterByConfig(all, c);
    filtered := FilterFindings(filtered, p);
    var deduped := Dedupe(filtered);
    var baseline := if c.baselineApplied then entries else [];
    var diff := DiffBaseline(deduped, baseline, now);
    var findings := MarkSuppressed(deduped, Active(baseline, now), diff.suppressed);
    r := ScanResult(findings, diff.gating, c.baselineApplied);
  }

  method FilterByConfig(all: seq<Finding>, c: Config) returns (filtered: seq<Finding>)
    ensures filtered == ByConfig(all, c)
  {
    hide Configured;
    filtered := [];
    for k := 0 to |all|
      invariant ByConfig(all, c) == filtered + ByConfig(all[k..], c)
    {
      assert all[k..][0] == all[k] && all[k..][1..] == all[k + 1..];
      if !Configured(all[k], c) {
        continue;
      }
      filtered := filtered + [all[k]];
    }
  }

  method MarkSuppressed(fs: seq<Finding>, ghost active: set<string>,
          suppressed: seq<Finding>) returns (marked: seq<Finding>)
    requires suppressed == In(fs, active)
    ensures marked == Marked(fs, active)
  {
    InMembers(fs, active);
    hide In, NotIn;
    marked := fs;
    for k := 0 to |fs|
      invariant |marked| == |fs|
      invariant forall i | 0 <= i < k :: marked[i] == if fs[i].fingerprint in active then
          fs[i].(extra := fs[i].extra.(baselined := true)) else fs[i]
      invariant forall i | k <= i < |fs| :: marked[i] == fs[i]
    {
      if fs[k] in suppressed {
        marked := marked[k := fs[k].(extra := fs[k].extra.(baselined := true))];
      }
    }
    assert marked == Marked(fs, active);
  }

  lemma {:induction false} InMembers(fs: seq<Finding>, fingerprints: set<string>)
    ensures forall f :: f in In(fs, fingerprints) <==> f in fs && f.fingerprint in fingerprints
    ensures forall f :: f in NotIn(fs, fingerprints) <==> f in fs && f.fingerprint !in fingerprints
  {
    if fs != [] {
      InMembers(fs[1..], fingerprints);
      assert forall f :: f in fs <==> f == fs[0] || f in fs[1..];
    }
  }

  method Dedupe(fs: seq<Finding>) returns (deduped: seq<Finding>)
    ensures deduped == Deduped(fs, {})
  {
    deduped := [];
    var seen: set<string> := {};
    for k := 0 to |fs|
      invariant Deduped(fs, {}) == deduped + Deduped(fs[k..], seen)
    {
      assert fs[k..][0] == fs[k] && fs[k..][1..] == fs[k + 1..];
      if fs[k].fingerprint in seen {
        continue;
      }
      seen := seen + {fs[k].fingerprint};
      deduped := deduped + [fs[k]];
    }
  }

  // ----- the stored rows

  /** A row of the findings table; the snippet, the dates and the status are not modelled. */
  datatype Row = Row(fingerprint: string, ruleId: string, title: string, severity: Severity, category: string,
      confidence: string,
                     file: string, line: int, extra: Extra, baselined: bool)

  function BaselinedFingerprints(fs: seq<Finding>): set<string> {
    set f | f in fs && f.extra.baselined :: f.fingerprint
  }

  function RowOf(f: Finding, baselined: set<string>): Row {
    Row(f.fingerprint, f.ruleId, f.title, f.severity, f.category, f.confidence, f.file, f.line, f.extra,
        f.fingerprint in baselined)
  }

  function RowsOf(fs: seq<Finding>, baselined: set<string>): (r: seq<Row>)
    ensures |r| == |fs|
    ensures forall i | 0 <= i < |fs| :: r[i] == RowOf(fs[i], baselined)
  {
    seq(|fs|, i requires 0 <= i < |fs| => RowOf(fs[i], baselined))
  }

  /** The finding rebuilt from a row: an absent ecosystem is written as the wildcard, and the digest is
      what the stored snippet gives. */
  function Restored(r: Row, digestOf: Row -> string): Finding {
    Finding(r.ruleId, r.title, r.severity, r.category, r.confidence, r.file, r.line,
            r.extra.(ecosystem := if r.extra.ecosystem.Some? then r.extra.ecosystem else Some("*")), r.fingerprint,
                digestOf(r))
  }

  function Replayed(rows: seq<Row>, digestOf: Row -> string): seq<Finding> {
    if rows == [] then []
    else if rows[0].baselined then Replayed(rows[1..], digestOf)
    else [Restored(rows[0], digestOf)] + Replayed(rows[1..], digestOf)
  }

  datatype Status = Queued | Running | Succeeded | Failed

  /** What happens when the engine is asked to scan. */
  datatype Attempt = TargetMissing | EngineRaised | Findings(all: seq<Finding>)

  /** The scan row and the finding rows that belong to it. */
  class StoredScan {
    var status: Status
    var document: seq<D.Entry>
    var rows: seq<Row>
    var policyPassed: Option<bool>

    constructor ()
      ensures status == Queued && rows == [] && policyPassed == None
    {
      status, document, rows, policyPassed := Queued, [], [], None;
    }

    /** Runs the scan and stores what it found, whatever happens leaving the row in a final state. */
    method Perform(attempt: Attempt, c: Config, p: D.Policy, entries: seq<BaselineEntry>,
            now: real) returns (decision: Option<Decision>)
      requires D.ValidPolicy(p) && rows == []
      modifies this
      ensures document == D.ToDict(p)
      ensures !attempt.Findings? ==>
          status == Failed && rows == [] && policyPassed == old(policyPassed) && decision == None
      ensures attempt.Findings? ==>
                var result := EndOfScan(attempt.all, c, p, entries, now);
                && status == Succeeded
                && rows == RowsOf(result.findings, BaselinedFingerprints(result.findings))
                && decision == Some(Evaluate(Gating(result), p))
                && policyPassed == Some(decision.value.passed)
    {
      hide D.ValidPolicy, D.ToDict, EndOfScan, Evaluate, BaselinedFingerprints;
      status := Running;
      document := D.ToDict(p);
      if !attempt.Findings? {
        status := Failed;
        return None;
      }
      var result := RunScanTail(attempt.all, c, p, entries, now);
      PersistFindings(result.findings);
      var d := EvaluatePolicy(Gating(result), p);
      status := Succeeded;
      policyPassed := Some(d.passed);
      decision := Some(d);
    }

    method PersistFindings(findings: seq<Finding>)
      requires rows == []
      modifies this`rows
      ensures rows == RowsOf(findings, BaselinedFingerprints(findings))
    {
      var baselined := BaselinedFingerprints(findings);
      for k := 0 to |findings|
        invariant rows == RowsOf(findings[..k], baselined)
      {
        hide BaselinedFingerprints, RowOf;
        assert findings[..k + 1] == findings[..k] + [findings[k]];
        rows := rows + [RowOf(findings[k], baselined)];
      }
      assert findings[..|findings|] == findings;
    }

    /** The stored decision, recomputed from the rows in whatever order the database returns them. */
    method Replay(fetched: seq<Row>, digestOf: Row -> string) returns (decision: Option<Decision>)
      requires multiset(fetched) == multiset(rows)
      ensures D.FromDict(document).Invalid? ==> decision == None
      ensures D.FromDict(document).Ok? ==>
                D.ValidPolicy(D.FromDict(document).policy)
                && decision == Some(Evaluate(Replayed(fetched, digestOf), D.FromDict(document).policy))
    {
      hide D.FromDict, D.ValidPolicy, Evaluate;
      var findings: seq<Finding> := [];
      for k := 0 to |fetched|
        invariant Replayed(fetched, digestOf) == findings + Replayed(fetched[k..], digestOf)
      {
        hide Restored;
        assert fetched[k..][0] == fetched[k] && fetched[k..][1..] == fetched[k + 1..];
        if !fetched[k].baselined {
          findings := findings + [Restored(fetched[k], digestOf)];
        }
      }
      assert fetched[|fetched|..] == [] && findings + [] == findings;
      match D.FromDict(document) {
        case Invalid(_) => return None;
        case Ok(p) =>
          D.AcceptedIsValid(document);
          var d := EvaluatePolicy(findings, p);
          decision := Some(d);
      }
    }
  }

  // ----- what survives the store

  /** The same to the gate: only the digest, the mark of the baseline and the spelling of an unknown
      ecosystem may differ. */
  predicate Alike(f: Finding, g: Finding) {
    && f.ruleId == g.ruleId && f.severity == g.severity && f.category == g.category && f.confidence == g.confidence
    && f.file == g.file && f.line == g.line && f.extra.license == g.extra.license && f.extra.package == g.extra.package
    && EcosystemOf(f) == EcosystemOf(g)
  }

  predicate AllAlike(a: seq<Finding>, b: seq<Finding>) { |a| == |b| && forall i | 0 <= i < |a| :: Alike(a[i], b[i]) }

  lemma {:induction false} AlikeCounts(a: seq<Finding>, b: seq<Finding>)
    requires AllAlike(a, b)
    ensures (forall s :: SeverityCount(a, s) == SeverityCount(b, s)) && Score(a) == Score(b)
  {
    if a != [] {
      assert Alike(a[0], b[0]);
      AlikeCounts(a[1..], b[1..]);
    }
  }

  lemma {:induction false} AlikeHits(a: seq<Finding>, b: seq<Finding>, p: D.Policy)
    requires AllAlike(a, b)
    ensures SeverityHits(a, p.failOn) == SeverityHits(b, p.failOn)
        && LicenseViolations(a, p.license) == LicenseViolations(b, p.license)
  {
    if a != [] {
      assert Alike(a[0], b[0]);
      assert Offends(a[0], p.failOn) == Offends(b[0], p.failOn);
      assert HasBlockedLicense(a[0], p.license) == HasBlockedLicense(b[0], p.license);
      assert HasRefusedUnknownLicense(a[0], p.license) == HasRefusedUnknownLicense(b[0], p.license);
      AlikeHits(a[1..], b[1..], p);
      hide Offends, HasBlockedLicense, HasRefusedUnknownLicense;
    }
  }

  lemma {:induction false} AlikePackages(a: seq<Finding>, b: seq<Finding>, index: map<(string, string), string>,
          seen: set<string>)
    requires AllAlike(a, b)
    ensures BlockedHits(a, index, seen) == BlockedHits(b, index, seen)
    decreases |a|
  {
    if a != [] {
      assert Alike(a[0], b[0]);
      assert IsBlocked(a[0], index) == IsBlocked(b[0], index) && Marker(a[0]) == Marker(b[0]);
      hide IsBlocked, Marker, Alike;
      AlikePackages(a[1..], b[1..], index, seen);
      AlikePackages(a[1..], b[1..], index, seen + {Marker(a[0])});
    }
  }

  lemma AlikeJudged(a: seq<Finding>, b: seq<Finding>, p: D.Policy)
    requires AllAlike(a, b)
    ensures Judge(a, p) == Judge(b, p)
  {
    AlikeCounts(a, b);
    AlikeHits(a, b, p);
    AlikePackages(a, b, BlockedIndex(p.blocks), {});
    hide AllAlike, SeverityCount, Score, SeverityHits, LicenseViolations, BlockedHits, BlockedIndex, GateViolations;
  }

  lemma AlikeSettled(f: Finding, g: Finding, p: D.Policy)
    requires D.ValidPolicy(p) && Alike(f, g)
    ensures Passes(f, p) && Override(f, p) == f ==> Passes(g, p) && Override(g, p) == g
  {
    hide D.ValidPolicy, ConfidenceRank;
    if f.ruleId in p.overrides {
      NamesDiffer(f.severity, SeverityOverride(f, p));
    }
  }

  function SeverityOverride(f: Finding, p: D.Policy): Severity
    requires D.ValidPolicy(p) && f.ruleId in p.overrides
  {
    SeverityNamed(p.overrides[f.ruleId])
  }

  // ----- the rows of the findings the gate looked at

  predicate Unmarked(fs: seq<Finding>) { forall f | f in fs :: !f.extra.baselined }

  function RestoredAll(fs: seq<Finding>, baselined: set<string>, digestOf: Row -> string): seq<Finding> {
    if fs == [] then [] else [Restored(RowOf(fs[0], baselined), digestOf)] + RestoredAll(fs[1..], baselined, digestOf)
  }

  lemma {:induction false} RestoredAlike(fs: seq<Finding>, baselined: set<string>, digestOf: Row -> string)
    ensures AllAlike(fs, RestoredAll(fs, baselined, digestOf))
  {
    if fs != [] {
      RestoredAlike(fs[1..], baselined, digestOf);
      assert Lower("*") == "*";
      assert Alike(fs[0], Restored(RowOf(fs[0], baselined), digestOf));
      hide Alike, Restored, RowOf;
    }
  }

  /** The rows that are not baselined are those of the findings that are new. */
  lemma {:induction false} ReplayedAreNew(fs: seq<Finding>, active: set<string>, baselined: set<string>,
          digestOf: Row -> string)
    requires forall f | f in fs :: f.fingerprint in baselined <==> f.fingerprint in active
    ensures Replayed(RowsOf(Marked(fs, active), baselined), digestOf)
        == RestoredAll(NotIn(fs, active), baselined, digestOf)
  {
    if fs != [] {
      assert fs[0] in fs && forall f | f in fs[1..] :: f in fs;
      var rows := RowsOf(Marked(fs, active), baselined);
      assert rows[1..] == RowsOf(Marked(fs[1..], active), baselined);
      ReplayedAreNew(fs[1..], active, baselined, digestOf);
      hide RowOf, Restored;
      assert rows[0] == RowOf(Marked(fs, active)[0], baselined);
      FirstRow(Marked(fs, active)[0], baselined);
    }
  }

  lemma FirstRow(f: Finding, baselined: set<string>)
    ensures RowOf(f, baselined).baselined <==> f.fingerprint in baselined
  {
  }

  lemma BaselinedAreActive(fs: seq<Finding>, active: set<string>)
    requires Unmarked(fs)
    ensures forall f | f in fs :: f.fingerprint in BaselinedFingerprints(Marked(fs,
        active)) <==> f.fingerprint in active
  {
    var marked := Marked(fs, active);
    forall f | f in fs ensures f.fingerprint in BaselinedFingerprints(marked) <==> f.fingerprint in active {
      var i :| 0 <= i < |fs| && fs[i] == f;
      assert marked[i] in marked;
      if f.fingerprint in BaselinedFingerprints(marked) {
        var g :| g in marked && g.extra.baselined && g.fingerprint == f.fingerprint;
        var j :| 0 <= j < |marked| && marked[j] == g;
        assert fs[j] in fs;
      }
    }
  }

  // ----- any order of the rows

  lemma {:induction false} ReplayedConcat(a: seq<Row>, b: seq<Row>, digestOf: Row -> string)
    ensures Replayed(a + b, digestOf) == Replayed(a, digestOf) + Replayed(b, digestOf)
  {
    if a == [] {
      assert a + b == b;
    } else {
      assert (a + b)[1..] == a[1..] + b;
      ReplayedConcat(a[1..], b, digestOf);
    }
  }

  lemma ReplayedTakesOut(b: seq<Row>, j: nat, digestOf: Row -> string)
    requires j < |b|
    ensures multiset(Replayed(b, digestOf)) ==
            (if b[j].baselined then multiset{} else multiset{Restored(b[j], digestOf)})
                + multiset(Replayed(b[..j] + b[j + 1..], digestOf))
  {
    ReplayedConcat(b[..j], b[j..], digestOf);
    ReplayedConcat(b[..j], b[j + 1..], digestOf);
    hide Restored;
    assert b == b[..j] + b[j..] && b[j..][1..] == b[j + 1..];
  }

  lemma {:induction false} ReplayedPermutes(a: seq<Row>, b: seq<Row>, digestOf: Row -> string)
    requires multiset(a) == multiset(b)
    ensures multiset(Replayed(a, digestOf)) == multiset(Replayed(b, digestOf))
  {
    if a == [] {
      EmptyElsewhere(b);
    } else {
      hide Replayed, Restored;
      var j := FrontElsewhere(a, b);
      ReplayedPermutes(a[1..], b[..j] + b[j + 1..], digestOf);
      ReplayedTakesOut(a, 0, digestOf);
      assert a[..0] + a[1..] == a[1..];
      ReplayedTakesOut(b, j, digestOf);
    }
  }

  // ----- the stored policy

  lemma StoredPolicyPasses(f: Finding, p: D.Policy)
    requires D.ValidPolicy(p)
    ensures D.ValidPolicy(D.Stored(p)) && Passes(f, D.Stored(p)) == Passes(f, p)
        && Override(f, D.Stored(p)) == Override(f, p)
  {
    D.SortedElements(p.ignoreRules);
    assert forall r: string :: r in p.ignoreRules <==> r in D.Elements(p.ignoreRules);
    assert forall r: string :: r in D.Sorted(p.ignoreRules) <==> r in D.Elements(D.Sorted(p.ignoreRules));
    hide D.Sorted, D.Elements;
  }

  lemma StoredPolicyJudges(fs: seq<Finding>, p: D.Policy)
    ensures Judge(fs, D.Stored(p)) == Judge(fs, p)
  {
  }

  // ----- the replayed decision

  lemma {:induction false} NotInEmpty(fs: seq<Finding>)
    ensures NotIn(fs, {}) == fs && Marked(fs, {}) == fs
  {
    if fs != [] {
      NotInEmpty(fs[1..]);
      assert [fs[0]] + fs[1..] == fs;
    }
  }

  /** With and without a baseline, the gate looks at the findings no active entry accepts. */
  lemma GatingIsNew(all: seq<Finding>, c: Config, p: D.Policy, entries: seq<BaselineEntry>, now: real)
    requires D.ValidPolicy(p)
    ensures var ds := Deduped(Filtered(ByConfig(all, c), p), {});
            var active := Active(if c.baselineApplied then entries else [], now);
            && Gating(EndOfScan(all, c, p, entries, now)) == NotIn(ds, active)
            && EndOfScan(all, c, p, entries, now).findings == Marked(ds, active)
  {
    var ds := Deduped(Filtered(ByConfig(all, c), p), {});
    if !c.baselineApplied {
      assert Active([], now) == {};
      NotInEmpty(ds);
    }
    hide Deduped, Filtered, ByConfig, NotIn, Marked, Active, D.ValidPolicy;
  }

  lemma {:induction false} FilteredUnmarked(fs: seq<Finding>, p: D.Policy)
    requires D.ValidPolicy(p) && Unmarked(fs)
    ensures Unmarked(Filtered(fs, p))
  {
    hide D.ValidPolicy;
    if fs != [] {
      assert fs[0] in fs && forall f | f in fs[1..] :: f in fs;
      FilteredUnmarked(fs[1..], p);
    }
  }

  /** The findings a scan keeps are left alone by the filter and carry no mark of their own. */
  lemma KeptFindings(all: seq<Finding>, c: Config, p: D.Policy)
    requires D.ValidPolicy(p) && Unmarked(all)
    ensures var ds := Deduped(Filtered(ByConfig(all, c), p), {}); Settled(ds, p) && Unmarked(ds)
  {
    FilterIsIdempotent(ByConfig(all, c), p);
    FilteredUnmarked(ByConfig(all, c), p);
    hide Filtered, ByConfig, D.ValidPolicy, Override, Passes;
  }

  /** Findings alike to settled ones, in any order, are judged as they were, by the stored policy. */
  lemma JudgedFromTheStore(fs: seq<Finding>, restored: seq<Finding>, fetched: seq<Finding>, p: D.Policy)
    requires D.ValidPolicy(p) && Settled(fs, p) && AllAlike(fs, restored) && multiset(fetched) == multiset(restored)
    ensures D.ValidPolicy(D.Stored(p))
    ensures var d, e := Evaluate(fs, p), Evaluate(fetched, D.Stored(p));
            e.passed == d.passed && |e.violations| == |d.violations| && e.counts == d.counts && e.score == d.score
  {
    hide D.ValidPolicy, D.Stored, Judge, Filtered, Passes, Override, Alike;
    SettledFilter(fs, p);
    forall f | f in fetched
      ensures D.ValidPolicy(D.Stored(p)) && Passes(f, D.Stored(p)) && Override(f, D.Stored(p)) == f
    {
      assert f in multiset(restored);
      var i :| 0 <= i < |restored| && restored[i] == f;
      assert fs[i] in fs;
      AlikeSettled(fs[i], f, p);
      StoredPolicyPasses(f, p);
    }
    StoredIsValid(p);
    SettledFilter(fetched, D.Stored(p));
    AlikeJudged(fs, restored, p);
    JudgeIgnoresOrder(restored, fetched, p);
    StoredPolicyJudges(fetched, p);
  }

  lemma StoredIsValid(p: D.Policy)
    requires D.ValidPolicy(p)
    ensures D.ValidPolicy(D.Stored(p))
  {
  }

  /** The rows a scan stores. */
  function StoredRows(r: ScanResult): seq<Row> { RowsOf(r.findings, BaselinedFingerprints(r.findings)) }

  /** Replay: for every list of findings, configuration, baseline, time and valid policy, evaluating the
      stored policy document over the stored rows that are not baselined, in whatever order they are
      fetched, passes or fails as the scan did, with as many violations, the same counts and the same score. */
  lemma DecisionReplay(all: seq<Finding>, c: Config, p: D.Policy, entries: seq<BaselineEntry>, now: real,
                       fetched: seq<Row>, digestOf: Row -> string)
    requires D.ValidPolicy(p) && Unmarked(all)
    requires multiset(fetched) == multiset(StoredRows(EndOfScan(all, c, p, entries, now)))
    ensures D.FromDict(D.ToDict(p)).Ok? && D.ValidPolicy(D.FromDict(D.ToDict(p)).policy)
    ensures var d := Evaluate(Gating(EndOfScan(all, c, p, entries, now)), p);
            var e := Evaluate(Replayed(fetched, digestOf), D.FromDict(D.ToDict(p)).policy);
            e.passed == d.passed && |e.violations| == |d.violations| && e.counts == d.counts && e.score == d.score
  {
    hide *;
    var ds := Deduped(Filtered(ByConfig(all, c), p), {});
    var active := Active(if c.baselineApplied then entries else [], now);
    GatingIsNew(all, c, p, entries, now);
    StoredRowsAre(EndOfScan(all, c, p, entries, now));
    var rows := StoredRows(EndOfScan(all, c, p, entries, now));
    var baselined := BaselinedFingerprints(Marked(ds, active));
    KeptFindings(all, c, p);
    BaselinedAreActive(ds, active);
    ReplayedAreNew(ds, active, baselined, digestOf);
    ReplayedPermutes(fetched, rows, digestOf);
    RestoredAlike(NotIn(ds, active), baselined, digestOf);
    SettledPart(ds, active, p);
    JudgedFromTheStore(NotIn(ds, active), RestoredAll(NotIn(ds, active), baselined, digestOf),
        Replayed(fetched, digestOf), p);
    D.DocumentRoundTrip(p);
  }

  lemma StoredRowsAre(r: ScanResult)
    ensures StoredRows(r) == RowsOf(r.findings, BaselinedFingerprints(r.findings))
  {
  }

  lemma SettledPart(fs: seq<Finding>, active: set<string>, p: D.Policy)
    requires D.ValidPolicy(p) && Settled(fs, p)
    ensures Settled(NotIn(fs, active), p)
  {
    hide D.ValidPolicy, Passes, Override;
    InMembers(fs, active);
  }
}
