/** Exactly which policy documents are accepted: what every section may hold, stated on the document. */
module PolicyAcceptance {
  import opened Strings
  import opened PolicyDocument

  /** What stands for nothing: null, false, zero and everything empty. */
  predicate Missing(v: Value) {
    || v == Null || v == Bool(false) || v == Int(0) || v == Float(0.0) || v == Str("") || v == List([]) || v == Dict([])
  }

  lemma TruthyExactlyWhen(v: Value)
    ensures Truthy(v) <==> !Missing(v)
  {
  }

  function At(entries: seq<Entry>, key: string): Value { GetOr(entries, key, Null) }

  predicate SeverityWord(w: string) {
    || Lower(w) == "critical" || Lower(w) == "high" || Lower(w) == "medium" || Lower(w) == "low" || Lower(w) == "info"
  }

  predicate GoodList(entries: seq<Entry>, key: string) { Missing(At(entries, key)) || At(entries, key).List? }

  predicate GoodCount(v: Value) { v == Null || (v.Int? && v.i >= 0) }

  /** A mapping from severities to limits. */
  predicate GoodGates(v: Value) {
    Missing(v) || (v.Dict? && forall e | e in v.entries :: SeverityWord(e.key) && e.value.Int? && e.value.i >= 0)
  }

  predicate EngineName(w: string) {
    || w == "ast-python" || w == "rule-engine" || w == "secrets" || w == "dependency" || w == "iac"
    || w == "license-compliance"
  }

  predicate GoodEngines(v: Value) {
    || Missing(v)
    || (&& v.Dict?
        && (|| At(v.entries, "enabled") == Null
            || (&& At(v.entries, "enabled").List?
                && forall e | e in At(v.entries, "enabled").items :: e.Str? && EngineName(e.s))))
  }

  predicate GoodOverrides(v: Value) {
    Missing(v) || (v.Dict? && forall e | e in v.entries :: SeverityWord(Text(e.value)))
  }

  predicate GoodRules(v: Value) {
    || Missing(v)
    || (&& v.Dict? && GoodList(v.entries, "ignore") && GoodOverrides(At(v.entries, "severity_overrides"))
        && var w := Lower(Text(GetOr(v.entries, "min_confidence", Str("low"))));
           w == "low" || w == "medium" || w == "high")
  }

  /** The strings a list section is read as. */
  function Listed(entries: seq<Entry>, key: string): set<string> {
    if At(entries, key).List? then set x | x in At(entries, key).items :: Text(x) else {}
  }

  predicate GoodLicenses(v: Value) {
    || Missing(v)
    || (&& v.Dict?
        && GoodList(v.entries, "allowed") && GoodList(v.entries, "warning") && GoodList(v.entries, "blocked")
        && Listed(v.entries, "blocked") !! Listed(v.entries, "allowed")
        && var w := Lower(Text(GetOr(v.entries, "unknown", Str("warn"))));
           w == "warn" || w == "block" || w == "allow")
  }

  predicate GoodSecrets(v: Value) {
    || Missing(v)
    || (&& v.Dict?
        && var threshold := Get(v.entries, "entropy_threshold");
           threshold.Some? ==> threshold.value.Int? || threshold.value.Float?)
  }

  predicate GoodBlock(v: Value) { v.Dict? && Get(v.entries, "name").Some? }

  predicate GoodDependencies(v: Value) {
    || Missing(v)
    || (&& v.Dict? && GoodList(v.entries, "block")
        && (At(v.entries, "block").List? ==> forall b | b in At(v.entries, "block").items :: GoodBlock(b)))
  }

  predicate GoodPaths(v: Value) {
    Missing(v) || (v.Dict? && GoodList(v.entries, "exclude") && GoodList(v.entries, "exclude_dirs"))
  }

  predicate GoodBaseline(v: Value) { Missing(v) || (v.Dict? && GoodCount(At(v.entries, "max_age_days"))) }

  predicate KnownKey(w: string) {
    || w == "version" || w == "name" || w == "fail_on" || w == "max_risk_score" || w == "severity_gates"
    || w == "engines" || w == "rules" || w == "licenses" || w == "secrets" || w == "dependencies" || w == "paths"
    || w == "baseline"
  }

  // ----- the reader finds exactly these faults

  lemma {:induction false} GatesAreGood(read: Read<map<string, nat>>, entries: seq<Entry>)
    ensures ReadGates(read, entries).problems == [] <==>
            && read.problems == []
            && forall e | e in entries :: SeverityWord(e.key) && e.value.Int? && e.value.i >= 0
    decreases |entries|
  {
    hide Lower;
    if entries != [] {
      GatesAreGood(ReadGate(read, entries[0]), entries[1..]);
      assert entries == [entries[0]] + entries[1..];
      SeverityWords(entries[0].key);
      hide IsSeverity, SeverityWord;
    }
  }

  lemma SeverityWords(w: string)
    ensures IsSeverity(Lower(w)) <==> SeverityWord(w)
  {
    hide Lower;
  }

  lemma {:induction false} OverridesAreGood(read: Read<map<string, string>>, entries: seq<Entry>)
    ensures ReadOverrides(read, entries).problems == [] <==>
            read.problems == [] && forall e | e in entries :: SeverityWord(Text(e.value))
    decreases |entries|
  {
    hide Lower, Text;
    if entries != [] {
      OverridesAreGood(ReadOverride(read, entries[0]), entries[1..]);
      assert entries == [entries[0]] + entries[1..];
      SeverityWords(Text(entries[0].value));
      hide IsSeverity, SeverityWord;
    }
  }

  lemma BlockIsGood(read: Read<seq<Block>>, v: Value)
    ensures ReadBlock(read, v).problems == [] <==> read.problems == [] && GoodBlock(v)
  {
    hide BlockOf, Get;
  }

  lemma {:induction false} BlocksAreGood(read: Read<seq<Block>>, items: seq<Value>)
    ensures ReadBlocks(read, items).problems == [] <==> read.problems == [] && forall b | b in items :: GoodBlock(b)
    decreases |items|
  {
    hide ReadBlock, GoodBlock;
    if items != [] {
      BlockIsGood(read, items[0]);
      BlocksAreGood(ReadBlock(read, items[0]), items[1..]);
      assert items[0] in items && forall b | b in items[1..] :: b in items;
    }
  }

  lemma StringsAreGood(entries: seq<Entry>, key: string, place: string)
    ensures ReadStrings(entries, key, place).problems == [] <==> GoodList(entries, key)
    ensures GoodList(entries, key) ==> Elements(ReadStrings(entries, key, place).value) == Listed(entries, key)
  {
    TruthyExactlyWhen(At(entries, key));
    hide Get, Text, Truthy;
    var v := At(entries, key);
    if v.List? { ElementsAreTexts(v.items); }
    assert Elements([]) == {};
  }

  lemma ElementsAreTexts(items: seq<Value>)
    ensures Elements(Texts(items)) == set x | x in items :: Text(x)
  {
    hide Text;
    var texts := Texts(items);
    forall w ensures w in texts <==> exists x | x in items :: Text(x) == w {
      if w in texts { var i :| 0 <= i < |texts| && texts[i] == w; assert items[i] in items; }
      if x :| x in items && Text(x) == w { var i :| 0 <= i < |items| && items[i] == x; assert texts[i] == w; }
    }
  }

  lemma GateSection(data: seq<Entry>)
    ensures ReadGatesSection(TruthyOr(data, "severity_gates", Dict([]))).problems == []
       <==> GoodGates(At(data, "severity_gates"))
  {
    var v := At(data, "severity_gates");
    TruthyExactlyWhen(v);
    if v.Dict? { GatesAreGood(Read(map[], []), v.entries); }
    hide Get, Truthy, ReadGate, SeverityWord;
    assert ReadGates(Read(map[], []), []).problems == [];
  }

  lemma EngineSection(v: Value)
    ensures ReadEngines(v).problems == [] <==> GoodEngines(v)
  {
    TruthyExactlyWhen(v);
    forall w ensures IsEngine(w) <==> EngineName(w) {}
    hide Get, Truthy, IsEngine, EngineName, Texts;
  }

  lemma RuleSection(v: Value)
    ensures ReadRules(v).problems == [] <==> GoodRules(v)
  {
    TruthyExactlyWhen(v);
    if v.Dict? {
      StringsAreGood(v.entries, "ignore", "rules.ignore");
      OverrideSection(v.entries);
    }
    hide Get, Truthy, ReadStrings, GoodList, GoodOverrides, ReadOverrides, TruthyOr, Lower, Text;
  }

  lemma OverrideSection(entries: seq<Entry>)
    ensures var raw := TruthyOr(entries, "severity_overrides", Dict([]));
            GoodOverrides(At(entries, "severity_overrides")) <==>
            raw.Dict? && ReadOverrides(Read(map[], []), raw.entries).problems == []
  {
    var v := At(entries, "severity_overrides");
    TruthyExactlyWhen(v);
    if v.Dict? { OverridesAreGood(Read(map[], []), v.entries); }
    hide Get, Truthy, ReadOverride, SeverityWord;
    assert ReadOverrides(Read(map[], []), []).problems == [];
  }

  lemma LicenseSection(v: Value)
    ensures ReadLicenses(v).problems == [] <==> GoodLicenses(v)
  {
    TruthyExactlyWhen(v);
    if v.Dict? {
      StringsAreGood(v.entries, "allowed", "licenses.allowed");
      StringsAreGood(v.entries, "warning", "licenses.warning");
      StringsAreGood(v.entries, "blocked", "licenses.blocked");
    }
    hide Get, Truthy, ReadStrings, GoodList, Listed, Elements, Lower, Text;
  }

  lemma DependencySection(v: Value)
    ensures ReadDependencies(v).problems == [] <==> GoodDependencies(v)
  {
    TruthyExactlyWhen(v);
    if v.Dict? {
      var raw := At(v.entries, "block");
      TruthyExactlyWhen(raw);
      if raw.List? { BlocksAreGood(Read([], []), raw.items); }
    }
    hide Get, Truthy, ReadBlock, GoodBlock;
    assert ReadBlocks(Read([], []), []).problems == [];
  }

  lemma PathSection(v: Value)
    ensures ReadPaths(v).problems == [] <==> GoodPaths(v)
  {
    TruthyExactlyWhen(v);
    if v.Dict? {
      StringsAreGood(v.entries, "exclude", "paths.exclude");
      StringsAreGood(v.entries, "exclude_dirs", "paths.exclude_dirs");
    }
    hide Get, Truthy, ReadStrings, GoodList;
  }

  lemma OtherSections(secrets: Value, baseline: Value, risk: Value)
    ensures ReadEntropy(secrets).problems == [] <==> GoodSecrets(secrets)
    ensures ReadBaseline(baseline).problems == [] <==> GoodBaseline(baseline)
    ensures ReadOptionalCount(risk, "max_risk_score").problems == [] <==> GoodCount(risk)
  {
    TruthyExactlyWhen(secrets);
    TruthyExactlyWhen(baseline);
    hide Get, Truthy;
  }

  lemma Words(w: string)
    ensures IsFailOn(w) <==>
            w == "critical" || w == "high" || w == "medium" || w == "low" || w == "any" || w == "none"
    ensures IsTopLevelKey(w) <==> KnownKey(w)
  {
  }

  /** A document is accepted exactly when its version is 1, its threshold one of six words in any case,
      every section holds what it may, and there are no other sections. */
  lemma AcceptedExactlyWhen(data: seq<Entry>)
    ensures FromDict(data).Ok? <==>
            && (var version := GetOr(data, "version", Int(1));
                version == Int(1) || version == Float(1.0) || version == Bool(true))
            && (var w := Lower(Text(GetOr(data, "fail_on", Str("high"))));
                w == "critical" || w == "high" || w == "medium" || w == "low" || w == "any" || w == "none")
            && GoodCount(At(data, "max_risk_score")) && GoodGates(At(data, "severity_gates"))
            && GoodEngines(At(data, "engines")) && GoodRules(At(data, "rules"))
            && GoodLicenses(At(data, "licenses")) && GoodSecrets(At(data, "secrets"))
            && GoodDependencies(At(data, "dependencies")) && GoodPaths(At(data, "paths"))
            && GoodBaseline(At(data, "baseline"))
            && forall e | e in data :: KnownKey(e.key)
  {
    GateSection(data);
    EngineSection(At(data, "engines"));
    RuleSection(At(data, "rules"));
    LicenseSection(At(data, "licenses"));
    DependencySection(At(data, "dependencies"));
    PathSection(At(data, "paths"));
    OtherSections(At(data, "secrets"), At(data, "baseline"), At(data, "max_risk_score"));
    forall w: string { Words(w); }
    hide Get, Lower, Text, TruthyOr, ReadOptionalCount, ReadGatesSection, ReadEngines, ReadRules, ReadLicenses,
         ReadEntropy, ReadDependencies, ReadPaths, ReadBaseline, GoodCount, GoodGates, GoodEngines, GoodRules,
         GoodLicenses, GoodSecrets, GoodDependencies, GoodPaths, GoodBaseline, KnownKey, IsFailOn, IsTopLevelKey;
  }

  // ----- what is read when nothing is said

  /** An empty document is the default policy... */
  lemma EmptyDocument()
    ensures FromDict([]) == Ok(Policy("ironclad-policy", "high", None, map[], None, [], "low", map[],
                                      LicensePolicy({}, {}, {}, "warn"), 4.3, [], [], [], Null, None))
  {
    EmptySections();
    assert Lower("high") == "high";
    assert ReadGatesSection(TruthyOr([], "severity_gates", Dict([]))) == Read(map[], []);
    hide ReadEngines, ReadRules, ReadLicenses, ReadEntropy, ReadDependencies, ReadPaths, ReadBaseline, Lower,
         ReadGatesSection, Truthy;
  }

  /** ... and a block that only names a package is for every ecosystem and gives no reason. */
  lemma NamedBlock(name: string)
    ensures BlockOf([Entry("name", Str(name))]) == Block("*", name, "")
  {
    OneName(name);
    hide Get;
    assert Lower("*") == "*";
  }

  lemma OneName(name: string)
    ensures var entries := [Entry("name", Str(name))];
            && Get(entries, "name") == Some(Str(name))
            && Get(entries, "ecosystem") == None && Get(entries, "reason") == None
  {
    assert [Entry("name", Str(name))][1..] == [];
    assert |"name"| == 4 && |"ecosystem"| == 9 && |"reason"| == 6;
  }

  lemma EmptySections()
    ensures ReadEngines(Null) == Read(None, []) && ReadRules(Null) == Read(Rules([], "low", map[]), [])
    ensures ReadLicenses(Null) == Read(LicensePolicy({}, {}, {}, "warn"), []) && ReadEntropy(Null) == Read(4.3, [])
    ensures ReadDependencies(Null) == Read([], []) && ReadPaths(Null) == Read(Paths([], []), [])
    ensures ReadBaseline(Null) == Read(BaselineSettings(Null, None), [])
  {
  }
}
