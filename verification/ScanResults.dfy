/** What the scan of a dependency reports: the matches of a pinned version, judged by the OSV schema,
    and the advisories a range is reported for. */
module ScanResults {
  import opened Strings
  import opened RangeText
  import opened Specs
  import opened SpecForms
  import opened Reporting
  import opened RecordClaims
  import Osv

  // ----- results at ascending places

  predicate Rising(places: seq<nat>) { forall i, j | 0 <= i < j < |places| :: places[i] < places[j] }

  /** The places are those of the list at which `p` holds, in order. */
  ghost predicate PlacesOf<T>(places: seq<nat>, list: seq<T>, p: T -> bool) {
    Rising(places) && forall k: nat :: k in places <==> k < |list| && p(list[k])
  }

  function Shifted(places: seq<nat>): (r: seq<nat>)
    ensures |r| == |places| && forall i | 0 <= i < |r| :: r[i] == places[i] + 1
  {
    seq(|places|, i requires 0 <= i < |places| => places[i] + 1)
  }

  lemma ShiftedHolds(places: seq<nat>, k: nat)
    ensures k in Shifted(places) <==> k > 0 && k - 1 in places
  {
    if k in Shifted(places) {
      var i :| 0 <= i < |places| && Shifted(places)[i] == k;
      assert places[i] == k - 1;
    }
    if k > 0 && k - 1 in places {
      var i :| 0 <= i < |places| && places[i] == k - 1;
      assert Shifted(places)[i] == k;
    }
  }

  lemma RisingInFront(places: seq<nat>)
    requires Rising(places)
    ensures Rising(Shifted(places)) && Rising([0] + Shifted(places))
  {
  }

  lemma PlacesInFront<T>(places: seq<nat>, list: seq<T>, p: T -> bool)
    requires list != [] && PlacesOf(places, list[1..], p)
    ensures PlacesOf((if p(list[0]) then [0] else []) + Shifted(places), list, p)
  {
    var front, tail := if p(list[0]) then [0] else [], Shifted(places);
    RisingInFront(places);
    assert p(list[0]) || front + tail == tail;
    forall k: nat ensures k in front + tail <==> k < |list| && p(list[k]) { OnePlace(places, list, p, k); }
    hide Shifted;
  }

  lemma OnePlace<T>(places: seq<nat>, list: seq<T>, p: T -> bool, k: nat)
    requires list != [] && PlacesOf(places, list[1..], p)
    ensures k in (if p(list[0]) then [0] else []) + Shifted(places) <==> k < |list| && p(list[k])
  {
    ShiftedHolds(places, k);
    hide Shifted, Rising;
    assert k > 0 ==> (k - 1 in places <==> k - 1 < |list[1..]| && p(list[1..][k - 1]));
    assert 0 < k < |list| ==> list[1..][k - 1] == list[k];
  }

  /** Each finding is made from the advisory at its place. */
  predicate MadeAt(findings: seq<Finding>, places: seq<nat>, advisories: seq<Advisory>, make: Advisory -> Finding) {
    |findings| == |places| &&
    forall i | 0 <= i < |places| :: places[i] < |advisories| && findings[i] == make(advisories[places[i]])
  }

  lemma MadeInFront(findings: seq<Finding>, places: seq<nat>, advisories: seq<Advisory>, make: Advisory -> Finding,
          hit: bool)
    requires advisories != [] && MadeAt(findings, places, advisories[1..], make)
    ensures MadeAt((if hit then [make(advisories[0])] else []) + findings, (if hit then [0] else []) + Shifted(places),
        advisories, make)
  {
  }

  // ----- pinned dependencies

  function Known(name: string): Advisory -> Finding { (a: Advisory) => KnownVulnerability(name, a.id) }

  function Matches(version: string): Advisory -> bool { (a: Advisory) => Satisfies(version, a.affected) }

  /** A pinned dependency: a known vulnerability for every advisory whose range holds its version, in
      the order of the advisories, and nothing else. */
  lemma {:induction false} PinnedFindings(dep: Dependency, advisories: seq<Advisory>) returns (places: seq<nat>)
    requires dep.isPinned && dep.version.Some? && dep.version.value != ""
    ensures PlacesOf(places, advisories, Matches(dep.version.value))
    ensures Findings(dep, advisories).Some?
         && MadeAt(Findings(dep, advisories).value, places, advisories, Known(dep.name))
  {
    hide Satisfies, Findings, Matches, Known;
    places := [];
    if advisories == [] {
      NoAdvisories(dep);
    } else {
      PinnedStep(dep, advisories);
      var rest := PinnedFindings(dep, advisories[1..]);
      var hit := Matches(dep.version.value)(advisories[0]);
      places := (if hit then [0] else []) + Shifted(rest);
      PlacesInFront(rest, advisories, Matches(dep.version.value));
      MadeInFront(Findings(dep, advisories[1..]).value, rest, advisories, Known(dep.name), hit);
    }
  }

  lemma NoAdvisories(dep: Dependency)
    ensures Findings(dep, []) == Some([])
  {
  }

  lemma PinnedStep(dep: Dependency, advisories: seq<Advisory>)
    requires dep.isPinned && dep.version.Some? && dep.version.value != "" && advisories != []
    ensures Findings(dep, advisories[1..]).Some? ==>
      var hit := Matches(dep.version.value)(advisories[0]);
      Findings(dep, advisories) == Some((if hit then [Known(dep.name)(advisories[0])] else [])
          + Findings(dep, advisories[1..]).value)
  {
    hide Satisfies;
    var rest := Findings(dep, advisories[1..]);
    if rest.Some? { assert [] + rest.value == rest.value; }
  }

  /** One stored record and its advisory. */
  datatype Record = Record(id: string, ranges: seq<Osv.Range>, versions: seq<string>)

  /** A record the schema allows, with something to compile and no range that is open from the
      beginning. */
  predicate IsCompiled(r: Record) {
    && Osv.WellFormed(r.ranges, r.versions) && !Osv.HasOpenFromZero(r.ranges)
    && Osv.Alternatives(r.ranges, r.versions) != []
  }

  predicate IsAffected(r: Record, v: string) { Osv.OsvAffected(r.ranges, r.versions, v) }

  function Stored(records: seq<Record>): (r: seq<Advisory>)
    ensures |r| == |records|
    ensures forall i | 0 <= i < |r| :: r[i] == RecordAdvisory(records[i].id, records[i].ranges, records[i].versions)
  {
    seq(|records|, i requires 0 <= i < |records| =>
      RecordAdvisory(records[i].id, records[i].ranges, records[i].versions))
  }

  /** Against compiled OSV records a pinned dependency is reported for exactly the records whose
      evaluation by the schema marks its version as affected, in their order. */
  lemma PinnedByTheSchema(dep: Dependency, records: seq<Record>) returns (places: seq<nat>)
    requires dep.isPinned && dep.version.Some? && dep.version.value != ""
    requires forall r | r in records :: IsCompiled(r)
    ensures Rising(places)
    ensures forall k: nat :: k in places <==> k < |records| && IsAffected(records[k], dep.version.value)
    ensures Findings(dep, Stored(records)).Some?
    ensures var fs := Findings(dep, Stored(records)).value;
            && |fs| == |places|
            && forall i | 0 <= i < |fs| ::
                 places[i] < |records| && fs[i] == KnownVulnerability(dep.name, records[places[i]].id)
  {
    hide Satisfies, Osv.OsvAffected, Osv.AffectedText, Osv.FirstFixed, IsCompiled;
    var v, advisories := dep.version.value, Stored(records);
    places := PinnedFindings(dep, advisories);
    forall k: nat | k < |records|
      ensures Satisfies(v, advisories[k].affected)
          == Osv.OsvAffected(records[k].ranges, records[k].versions, v)
    {
      CompiledMatch(records[k], v);
    }
    forall k: nat ensures k in places <==> k < |records| && Matches(v)(advisories[k]) {
      if k in places {
        var i :| 0 <= i < |places| && places[i] == k;
      }
    }
  }

  lemma CompiledMatch(r: Record, v: string)
    requires IsCompiled(r)
    ensures Satisfies(v, RecordAdvisory(r.id, r.ranges, r.versions).affected)
         == Osv.OsvAffected(r.ranges, r.versions, v)
  {
    hide Satisfies, Osv.OsvAffected, Osv.AffectedText, Osv.FirstFixed, Osv.WellFormed, Osv.HasOpenFromZero,
         Osv.Alternatives;
    Osv.CompilationPreservesMeaning(r.ranges, r.versions, v);
    RecordText(r.id, r.ranges, r.versions);
  }

  // ----- ranges

  function Excluded(name: string): Advisory -> Finding { (a: Advisory) => RangeExcludesFix(name, a.id) }

  /** The candidate is affected, and there is no fix or the declaration translates and excludes it. */
  predicate NoWayOut(dep: Dependency, a: Advisory)
    requires dep.version.Some?
  {
    && Satisfies(dep.version.value, a.affected)
    && (Strip(a.fixedIn) != "" ==>
          && dep.declaredSpec.Some? && dep.declaredSpec.value != ""
          && NormalizeSpec(dep.declaredSpec.value).Comparators?
          && !Satisfies(Strip(a.fixedIn), NormalizeSpec(dep.declaredSpec.value).text))
  }

  function HasNoWayOut(dep: Dependency): Advisory -> bool
    requires dep.version.Some?
  {
    (a: Advisory) => NoWayOut(dep, a)
  }

  lemma RangeDecision(dep: Dependency, a: Advisory)
    requires !dep.isPinned && dep.version.Some? && dep.version.value != ""
    ensures Decide(dep, a) == Report(RangeExcludesFix(dep.name, a.id)) <==> NoWayOut(dep, a)
    ensures !NoWayOut(dep, a) ==> Decide(dep, a).Skip? || Decide(dep, a).Crash?
  {
    hide Satisfies, NormalizeSpec, Strip;
  }

  /** A range, unless its scan raises: one finding for every advisory that leaves no way out, in the
      order of the advisories, and nothing else. */
  lemma {:induction false} RangeFindings(dep: Dependency, advisories: seq<Advisory>) returns (places: seq<nat>)
    requires !dep.isPinned && dep.version.Some? && dep.version.value != "" && Findings(dep, advisories).Some?
    ensures PlacesOf(places, advisories, HasNoWayOut(dep))
    ensures MadeAt(Findings(dep, advisories).value, places, advisories, Excluded(dep.name))
  {
    hide Findings, HasNoWayOut, Excluded;
    places := [];
    if advisories == [] {
      NoAdvisories(dep);
    } else {
      RangeStep(dep, advisories);
      var rest := RangeFindings(dep, advisories[1..]);
      var hit := HasNoWayOut(dep)(advisories[0]);
      places := (if hit then [0] else []) + Shifted(rest);
      PlacesInFront(rest, advisories, HasNoWayOut(dep));
      MadeInFront(Findings(dep, advisories[1..]).value, rest, advisories, Excluded(dep.name), hit);
    }
  }

  lemma RangeStep(dep: Dependency, advisories: seq<Advisory>)
    requires !dep.isPinned && dep.version.Some? && dep.version.value != "" && advisories != []
    requires Findings(dep, advisories).Some?
    ensures Findings(dep, advisories[1..]).Some?
    ensures var hit := HasNoWayOut(dep)(advisories[0]);
            Findings(dep, advisories) == Some((if hit then [Excluded(dep.name)(advisories[0])] else [])
                + Findings(dep, advisories[1..]).value)
  {
    hide Decide, NoWayOut;
    RangeDecision(dep, advisories[0]);
    var rest := Findings(dep, advisories[1..]);
    if rest.Some? { assert [] + rest.value == rest.value; }
  }

  /** The declaration is missing, or in a syntax that is not translated. */
  predicate Untranslated(dep: Dependency) {
    dep.declaredSpec.None? || dep.declaredSpec.value == "" || NormalizeSpec(dep.declaredSpec.value).Unknown?
  }

  /** Such a range is never reported for an advisory that names a fix. */
  lemma {:induction false} UntranslatedIsNotReported(dep: Dependency, advisories: seq<Advisory>)
    requires !dep.isPinned && Untranslated(dep)
    ensures Findings(dep, advisories).Some?
    ensures forall f | f in Findings(dep, advisories).value ::
        exists a | a in advisories :: Strip(a.fixedIn) == "" && f == RangeExcludesFix(dep.name, a.id)
  {
    hide Satisfies, NormalizeSpec, Strip;
    if advisories != [] {
      var a, rest := advisories[0], advisories[1..];
      assert a in advisories && forall x | x in rest :: x in advisories;
      UntranslatedIsNotReported(dep, rest);
    }
  }
}
