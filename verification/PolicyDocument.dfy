/** Policies and the documents they are stored as: the validating reader of a policy document, the
    writer that a scan stores, and the round trip between them. */
module PolicyDocument {
  import opened Sequences
  import opened Strings
  import V = Versions

  // ----- documents

  datatype Entry = Entry(key: string, value: Value)

  datatype Value =
    | Null
    | Bool(b: bool)
    | Int(i: int)
    | Float(r: real)
    | Str(s: string)
    | List(items: seq<Value>)
    | Dict(entries: seq<Entry>)

  predicate Truthy(v: Value) {
    match v
    case Null => false
    case Bool(b) => b
    case Int(i) => i != 0
    case Float(r) => r != 0.0
    case Str(s) => s != ""
    case List(items) => items != []
    case Dict(entries) => entries != []
  }

  /** `str(v)`; the text of a float, a list or a mapping is not modelled. */
  function Text(v: Value): string {
    match v
    case Null => "None"
    case Bool(b) => if b then "True" else "False"
    case Int(i) => IntText(i)
    case Float(_) => "<float>"
    case Str(s) => s
    case List(_) => "<list>"
    case Dict(_) => "<mapping>"
  }

  function Texts(items: seq<Value>): (r: seq<string>)
    ensures |r| == |items|
    ensures forall i | 0 <= i < |r| :: r[i] == Text(items[i])
  {
    if items == [] then [] else [Text(items[0])] + Texts(items[1..])
  }

  function Get(entries: seq<Entry>, key: string): Option<Value> {
    if entries == [] then None
    else if entries[0].key == key then Some(entries[0].value)
    else Get(entries[1..], key)
  }

  function GetOr(entries: seq<Entry>, key: string, default: Value): Value {
    var v := Get(entries, key);
    if v.Some? then v.value else default
  }

  /** `data.get(key) or default` */
  function TruthyOr(entries: seq<Entry>, key: string, default: Value): Value {
    var v := GetOr(entries, key, Null);
    if Truthy(v) then v else default
  }

  lemma {:induction false} GetAt(entries: seq<Entry>, i: nat)
    requires i < |entries| && forall j | 0 <= j < i :: entries[j].key != entries[i].key
    ensures Get(entries, entries[i].key) == Some(entries[i].value)
  {
    if i > 0 {
      assert entries[1..][i - 1] == entries[i];
      GetAt(entries[1..], i - 1);
    }
  }

  /** An empty list or mapping is what it is replaced by. */
  lemma CollectionRead(entries: seq<Entry>, key: string, v: Value)
    requires Get(entries, key) == Some(v)
    ensures v.List? ==> TruthyOr(entries, key, List([])) == v
    ensures v.Dict? ==> TruthyOr(entries, key, Dict([])) == v
  {
    hide Get;
    if !Truthy(v) {
      assert v.List? ==> v.items == [];
      assert v.Dict? ==> v.entries == [];
    }
  }

  // ----- policies

  datatype LicensePolicy = LicensePolicy(allowed: set<string>, warning: set<string>, blocked: set<string>,
      unknown: string)

  datatype Block = Block(ecosystem: string, name: string, reason: string)

  datatype Policy = Policy(
    name: string, failOn: string, maxRiskScore: Option<nat>, gates: map<string, nat>, engines: Option<seq<string>>,
    ignoreRules: seq<string>, minConfidence: string, overrides: map<string, string>, license: LicensePolicy,
    entropyThreshold: real, blocks: seq<Block>, pathExcludes: seq<string>, excludeDirs: seq<string>,
    baselinePath: Value, baselineMaxAge: Option<nat>)

  predicate IsSeverity(s: string) { s in ["critical", "high", "medium", "low", "info"] }

  predicate IsFailOn(s: string) { s in ["critical", "high", "medium", "low", "any", "none"] }

  predicate IsConfidence(s: string) { s in ["low", "medium", "high"] }

  predicate IsUnknownAction(s: string) { s in ["warn", "block", "allow"] }

  predicate IsEngine(s: string) {
    s in ["ast-python", "rule-engine", "secrets", "dependency", "iac", "license-compliance"]
  }

  predicate IsTopLevelKey(s: string) {
    s in ["version", "name", "fail_on", "max_risk_score", "severity_gates", "engines",
          "rules", "licenses", "secrets", "dependencies", "paths", "baseline"]
  }

  // ----- reading

  /** A value read from the document, and the places where the document is wrong. */
  datatype Read<+T> = Read(value: T, problems: seq<string>)

  function Problem(ok: bool, place: string): (r: seq<string>)
    ensures r == [] <==> ok
  {
    if ok then [] else [place]
  }

  predicate IsVersionOne(v: Value) { v == Int(1) || v == Float(1.0) || v == Bool(true) }

  predicate IsCount(v: Value) { v.Int? && v.i >= 0 }

  function ReadOptionalCount(v: Value, place: string): Read<Option<nat>> {
    if v == Null then Read(None, [])
    else if IsCount(v) then Read(Some(v.i), [])
    else Read(None, [place])
  }

  function ReadGate(read: Read<map<string, nat>>, e: Entry): Read<map<string, nat>> {
    if !IsSeverity(Lower(e.key)) then read.(problems := read.problems + ["severity_gates contains unknown severity"])
    else if !IsCount(e.value) then read.(problems := read.problems + ["severity_gates[]"])
    else read.(value := read.value[Lower(e.key) := e.value.i])
  }

  function ReadGates(read: Read<map<string, nat>>, entries: seq<Entry>): Read<map<string, nat>>
    decreases |entries|
  {
    if entries == [] then read else ReadGates(ReadGate(read, entries[0]), entries[1..])
  }

  function ReadGatesSection(v: Value): Read<map<string, nat>> {
    if v.Dict? then ReadGates(Read(map[], []), v.entries) else Read(map[], ["severity_gates"])
  }

  function ReadOverride(read: Read<map<string, string>>, e: Entry): Read<map<string, string>> {
    if !IsSeverity(Lower(Text(e.value))) then read.(problems := read.problems + ["rules.severity_overrides[]"])
    else read.(value := read.value[e.key := Lower(Text(e.value))])
  }

  function ReadOverrides(read: Read<map<string, string>>, entries: seq<Entry>): Read<map<string, string>>
    decreases |entries|
  {
    if entries == [] then read else ReadOverrides(ReadOverride(read, entries[0]), entries[1..])
  }

  /** A list of strings under a key; missing, null and empty are the empty list. */
  function ReadStrings(entries: seq<Entry>, key: string, place: string): Read<seq<string>> {
    var raw := TruthyOr(entries, key, List([]));
    if raw.List? then Read(Texts(raw.items), []) else Read([], [place])
  }

  predicate AllEngines(items: seq<Value>) { forall e | e in items :: e.Str? && IsEngine(e.s) }

  function ReadEngines(v: Value): Read<Option<seq<string>>> {
    if !Truthy(v) then Read(None, [])
    else if !v.Dict? then Read(None, ["engines"])
    else
      var enabled := GetOr(v.entries, "enabled", Null);
      if enabled == Null then Read(None, [])
      else if !enabled.List? then Read(None, ["engines.enabled"])
      else Read(Some(Texts(enabled.items)), Problem(AllEngines(enabled.items),
          "engines.enabled contains unknown engines"))
  }

  datatype Rules = Rules(ignore: seq<string>, minConfidence: string, overrides: map<string, string>)

  function ReadRules(v: Value): Read<Rules> {
    if !Truthy(v) then Read(Rules([], "low", map[]), [])
    else if !v.Dict? then Read(Rules([], "low", map[]), ["rules"])
    else
      var ignore := ReadStrings(v.entries, "ignore", "rules.ignore");
      var confidence := Lower(Text(GetOr(v.entries, "min_confidence", Str("low"))));
      var raw := TruthyOr(v.entries, "severity_overrides", Dict([]));
      var overrides := if raw.Dict? then ReadOverrides(Read(map[], []), raw.entries)
          else Read(map[], ["rules.severity_overrides"]);
      Read(Rules(ignore.value, confidence, overrides.value),
           ignore.problems + Problem(IsConfidence(confidence), "rules.min_confidence") + overrides.problems)
  }

  function Elements(xs: seq<string>): set<string> { set x | x in xs }

  function ReadLicenses(v: Value): Read<LicensePolicy> {
    if !Truthy(v) then Read(LicensePolicy({}, {}, {}, "warn"), [])
    else if !v.Dict? then Read(LicensePolicy({}, {}, {}, "warn"), ["licenses"])
    else
      var allowed := ReadStrings(v.entries, "allowed", "licenses.allowed");
      var warning := ReadStrings(v.entries, "warning", "licenses.warning");
      var blocked := ReadStrings(v.entries, "blocked", "licenses.blocked");
      var unknown := Lower(Text(GetOr(v.entries, "unknown", Str("warn"))));
      Read(LicensePolicy(Elements(allowed.value), Elements(warning.value), Elements(blocked.value), unknown),
           allowed.problems + warning.problems + blocked.problems
               + Problem(IsUnknownAction(unknown), "licenses.unknown")
           + Problem(Elements(blocked.value) !! Elements(allowed.value), "licenses"))
  }

  function ReadEntropy(v: Value): Read<real> {
    if !Truthy(v) then Read(4.3, [])
    else if !v.Dict? then Read(4.3, ["secrets"])
    else
      match GetOr(v.entries, "entropy_threshold", Float(4.3))
      case Int(i) => Read(i as real, [])
      case Float(r) => Read(r, [])
      case _ => Read(4.3, ["secrets.entropy_threshold"])
  }

  function BlockOf(entries: seq<Entry>): Block {
    Block(Lower(Text(GetOr(entries, "ecosystem", Str("*")))), Text(GetOr(entries, "name", Null)),
        Text(GetOr(entries, "reason", Str(""))))
  }

  function ReadBlock(read: Read<seq<Block>>, v: Value): Read<seq<Block>> {
    if !v.Dict? || Get(v.entries, "name").None? then read.(problems := read.problems + ["dependencies.block[]"])
    else read.(value := read.value + [BlockOf(v.entries)])
  }

  function ReadBlocks(read: Read<seq<Block>>, items: seq<Value>): Read<seq<Block>>
    decreases |items|
  {
    if items == [] then read else ReadBlocks(ReadBlock(read, items[0]), items[1..])
  }

  function ReadDependencies(v: Value): Read<seq<Block>> {
    if !Truthy(v) then Read([], [])
    else if !v.Dict? then Read([], ["dependencies"])
    else
      var raw := TruthyOr(v.entries, "block", List([]));
      if raw.List? then ReadBlocks(Read([], []), raw.items) else Read([], ["dependencies.block"])
  }

  datatype Paths = Paths(excludes: seq<string>, dirs: seq<string>)

  function ReadPaths(v: Value): Read<Paths> {
    if !Truthy(v) then Read(Paths([], []), [])
    else if !v.Dict? then Read(Paths([], []), ["paths"])
    else
      var excludes := ReadStrings(v.entries, "exclude", "paths.exclude");
      var dirs := ReadStrings(v.entries, "exclude_dirs", "paths.exclude_dirs");
      Read(Paths(excludes.value, dirs.value), excludes.problems + dirs.problems)
  }

  datatype BaselineSettings = BaselineSettings(path: Value, maxAge: Option<nat>)

  function ReadBaseline(v: Value): Read<BaselineSettings> {
    if !Truthy(v) then Read(BaselineSettings(Null, None), [])
    else if !v.Dict? then Read(BaselineSettings(Null, None), ["baseline"])
    else
      var age := ReadOptionalCount(GetOr(v.entries, "max_age_days", Null), "baseline.max_age_days");
      Read(BaselineSettings(GetOr(v.entries, "path", Null), age.value), age.problems)
  }

  datatype Result = Ok(policy: Policy) | Invalid(problems: seq<string>)

  /** Everything a document says, with every problem in it. */
  function ReadAll(data: seq<Entry>): Read<Policy> {
    var failOn := Lower(Text(GetOr(data, "fail_on", Str("high"))));
    var risk := ReadOptionalCount(GetOr(data, "max_risk_score", Null), "max_risk_score");
    var gates := ReadGatesSection(TruthyOr(data, "severity_gates", Dict([])));
    var engines := ReadEngines(GetOr(data, "engines", Null));
    var rules := ReadRules(GetOr(data, "rules", Null));
    var licenses := ReadLicenses(GetOr(data, "licenses", Null));
    var entropy := ReadEntropy(GetOr(data, "secrets", Null));
    var blocks := ReadDependencies(GetOr(data, "dependencies", Null));
    var paths := ReadPaths(GetOr(data, "paths", Null));
    var baseline := ReadBaseline(GetOr(data, "baseline", Null));
    Read(Policy(Text(GetOr(data, "name", Str("ironclad-policy"))), failOn, risk.value, gates.value, engines.value,
                rules.value.ignore, rules.value.minConfidence, rules.value.overrides, licenses.value, entropy.value,
                blocks.value, paths.value.excludes, paths.value.dirs, baseline.value.path, baseline.value.maxAge),
         Problem(IsVersionOne(GetOr(data, "version", Int(1))), "version") + Problem(IsFailOn(failOn), "fail_on")
         + risk.problems + gates.problems + engines.problems + rules.problems + licenses.problems + entropy.problems
         + blocks.problems + paths.problems + baseline.problems
         + Problem(forall e | e in data :: IsTopLevelKey(e.key), "unknown top-level keys"))
  }

  function FromDict(data: seq<Entry>): Result {
    var all := ReadAll(data);
    if all.problems == [] then Ok(all.value) else Invalid(all.problems)
  }

  // ----- the loops of the reader

  method ReadGateLoop(entries: seq<Entry>) returns (gates: map<string, nat>, problems: seq<string>)
    ensures Read(gates, problems) == ReadGates(Read(map[], []), entries)
  {
    hide Lower, IsSeverity;
    gates, problems := map[], [];
    for k := 0 to |entries|
      invariant ReadGates(Read(map[], []), entries) == ReadGates(Read(gates, problems), entries[k..])
    {
      assert entries[k..][0] == entries[k] && entries[k..][1..] == entries[k + 1..];
      var key := Lower(entries[k].key);
      if !IsSeverity(key) {
        problems := problems + ["severity_gates contains unknown severity"];
        continue;
      }
      if !IsCount(entries[k].value) {
        problems := problems + ["severity_gates[]"];
        continue;
      }
      gates := gates[key := entries[k].value.i];
    }
  }

  method ReadOverrideLoop(entries: seq<Entry>) returns (overrides: map<string, string>, problems: seq<string>)
    ensures Read(overrides, problems) == ReadOverrides(Read(map[], []), entries)
  {
    hide Lower, Text, IsSeverity;
    overrides, problems := map[], [];
    for k := 0 to |entries|
      invariant ReadOverrides(Read(map[], []), entries) == ReadOverrides(Read(overrides, problems), entries[k..])
    {
      assert entries[k..][0] == entries[k] && entries[k..][1..] == entries[k + 1..];
      var severity := Lower(Text(entries[k].value));
      if !IsSeverity(severity) {
        problems := problems + ["rules.severity_overrides[]"];
      } else {
        overrides := overrides[entries[k].key := severity];
      }
    }
  }

  method ReadBlockLoop(items: seq<Value>) returns (blocks: seq<Block>, problems: seq<string>)
    ensures Read(blocks, problems) == ReadBlocks(Read([], []), items)
  {
    hide BlockOf, Get;
    blocks, problems := [], [];
    for k := 0 to |items|
      invariant ReadBlocks(Read([], []), items) == ReadBlocks(Read(blocks, problems), items[k..])
    {
      var item := items[k];
      assert items[k..][0] == item && items[k..][1..] == items[k + 1..];
      if !item.Dict? || Get(item.entries, "name").None? {
        problems := problems + ["dependencies.block[]"];
        continue;
      }
      blocks := blocks + [BlockOf(item.entries)];
    }
  }

  // ----- writing

  predicate IsLeast(m: string, s: set<string>) { m in s && forall x | x in s && x != m :: V.StringLess(m, x) }

  lemma {:induction false} LeastExists(s: set<string>)
    requires s != {}
    ensures exists m :: IsLeast(m, s)
    decreases |s|
  {
    StringOrder();
    var x :| x in s;
    if s == {x} {
      assert IsLeast(x, s);
    } else {
      var rest := s - {x};
      LeastExists(rest);
      var n :| IsLeast(n, rest);
      var m := if V.StringLess(x, n) then x else n;
      forall y | y in s && y != m ensures V.StringLess(m, y) {
        if y != x && m == x {
          assert y in rest;
        }
      }
      assert IsLeast(m, s);
    }
  }

  lemma StringOrder()
    ensures V.StrictTotalOrder(V.StringLess)
  {
    V.PreStrictTotal();
    V.LexStrictTotal(V.CharLess, V.StringLess);
  }

  /** `sorted` on a set of strings. */
  function SortedSet(s: set<string>): (r: seq<string>)
    ensures |r| == |s|
    decreases |s|
  {
    if s == {} then []
    else
      LeastExists(s);
      StringOrder();
      var m :| IsLeast(m, s);
      [m] + SortedSet(s - {m})
  }

  lemma ElementsCons(x: string, xs: seq<string>)
    ensures Elements([x] + xs) == {x} + Elements(xs)
  {
    assert ([x] + xs)[0] == x && forall i | 0 <= i < |xs| :: ([x] + xs)[i + 1] == xs[i];
  }

  lemma {:induction false} SortedSetElements(s: set<string>)
    ensures Elements(SortedSet(s)) == s
    decreases |s|
  {
    if s != {} {
      var r := SortedSet(s);
      var m := r[0];
      SortedSetElements(s - {m});
      ElementsCons(m, SortedSet(s - {m}));
      assert r == [m] + SortedSet(s - {m}) && m in s;
    }
  }

  function Inserted(x: string, xs: seq<string>): seq<string> {
    if xs == [] || V.StringLess(x, xs[0]) then [x] + xs else [xs[0]] + Inserted(x, xs[1..])
  }

  /** `sorted` on a list of strings. */
  function Sorted(xs: seq<string>): seq<string> {
    if xs == [] then [] else Inserted(xs[0], Sorted(xs[1..]))
  }

  lemma {:induction false} InsertedElements(x: string, xs: seq<string>)
    ensures Elements(Inserted(x, xs)) == Elements(xs) + {x}
  {
    if xs == [] || V.StringLess(x, xs[0]) {
      ElementsCons(x, xs);
    } else {
      InsertedElements(x, xs[1..]);
      ElementsCons(xs[0], xs[1..]);
      ElementsCons(xs[0], Inserted(x, xs[1..]));
      assert [xs[0]] + xs[1..] == xs;
    }
  }

  lemma {:induction false} SortedElements(xs: seq<string>)
    ensures Elements(Sorted(xs)) == Elements(xs)
  {
    if xs != [] {
      SortedElements(xs[1..]);
      InsertedElements(xs[0], Sorted(xs[1..]));
      ElementsCons(xs[0], xs[1..]);
      assert [xs[0]] + xs[1..] == xs;
    }
  }

  function Strs(xs: seq<string>): (r: seq<Value>)
    ensures |r| == |xs|
    ensures forall i | 0 <= i < |xs| :: r[i] == Str(xs[i])
  {
    if xs == [] then [] else [Str(xs[0])] + Strs(xs[1..])
  }

  function OptionalCount(n: Option<nat>): Value { if n.Some? then Int(n.value) else Null }

  function GateEntries(gates: map<string, nat>, keys: seq<string>): seq<Entry>
    requires forall k | k in keys :: k in gates
  {
    if keys == [] then [] else [Entry(keys[0], Int(gates[keys[0]]))] + GateEntries(gates, keys[1..])
  }

  function OverrideEntries(overrides: map<string, string>, keys: seq<string>): seq<Entry>
    requires forall k | k in keys :: k in overrides
  {
    if keys == [] then [] else [Entry(keys[0], Str(overrides[keys[0]]))] + OverrideEntries(overrides, keys[1..])
  }

  function WriteGates(gates: map<string, nat>): Value {
    SortedSetElements(gates.Keys);
    assert forall k | k in SortedSet(gates.Keys) :: k in Elements(SortedSet(gates.Keys));
    Dict(GateEntries(gates, SortedSet(gates.Keys)))
  }

  function WriteOverrides(overrides: map<string, string>): Value {
    SortedSetElements(overrides.Keys);
    assert forall k | k in SortedSet(overrides.Keys) :: k in Elements(SortedSet(overrides.Keys));
    Dict(OverrideEntries(overrides, SortedSet(overrides.Keys)))
  }

  function WriteEngines(engines: Option<seq<string>>): Value {
    if engines.Some? && engines.value != [] then Dict([Entry("enabled", List(Strs(engines.value)))]) else Dict([])
  }

  function WriteRules(p: Policy): Value {
    Dict([Entry("ignore", List(Strs(Sorted(p.ignoreRules)))), Entry("min_confidence", Str(p.minConfidence)),
          Entry("severity_overrides", WriteOverrides(p.overrides))])
  }

  function WriteLicenses(l: LicensePolicy): Value {
    Dict([Entry("allowed", List(Strs(SortedSet(l.allowed)))), Entry("warning", List(Strs(SortedSet(l.warning)))),
          Entry("blocked", List(Strs(SortedSet(l.blocked)))), Entry("unknown", Str(l.unknown))])
  }

  function WriteBlock(b: Block): Value {
    Dict([Entry("ecosystem", Str(b.ecosystem)), Entry("name", Str(b.name)), Entry("reason", Str(b.reason))])
  }

  function WriteBlocks(blocks: seq<Block>): seq<Value> {
    if blocks == [] then [] else [WriteBlock(blocks[0])] + WriteBlocks(blocks[1..])
  }

  function ToDict(p: Policy): seq<Entry> {
    [Entry("version", Int(1)), Entry("name", Str(p.name)), Entry("fail_on", Str(p.failOn)),
     Entry("max_risk_score", OptionalCount(p.maxRiskScore)), Entry("severity_gates", WriteGates(p.gates)),
     Entry("engines", WriteEngines(p.engines)), Entry("rules", WriteRules(p)),
         Entry("licenses", WriteLicenses(p.license)),
     Entry("secrets", Dict([Entry("entropy_threshold", Float(p.entropyThreshold))])),
     Entry("dependencies", Dict([Entry("block", List(WriteBlocks(p.blocks)))])),
     Entry("paths", Dict([Entry("exclude", List(Strs(p.pathExcludes))),
         Entry("exclude_dirs", List(Strs(p.excludeDirs)))])),
     Entry("baseline", Dict([Entry("path", p.baselinePath), Entry("max_age_days", OptionalCount(p.baselineMaxAge))]))]
  }

  // ----- what the reader guarantees

  predicate ValidPolicy(p: Policy) {
    && IsFailOn(p.failOn)
    && (forall k | k in p.gates :: IsSeverity(k))
    && (p.engines.Some? ==> forall e | e in p.engines.value :: IsEngine(e))
    && IsConfidence(p.minConfidence)
    && (forall k | k in p.overrides :: IsSeverity(p.overrides[k]))
    && IsUnknownAction(p.license.unknown)
    && p.license.blocked !! p.license.allowed
    && LowerEcosystems(p.blocks)
  }

  lemma LowerTwice(s: string)
    ensures Lower(Lower(s)) == Lower(s)
  {
  }

  lemma {:induction false} GatesAreValid(read: Read<map<string, nat>>, entries: seq<Entry>)
    requires forall k | k in read.value :: IsSeverity(k)
    ensures forall k | k in ReadGates(read, entries).value :: IsSeverity(k)
    decreases |entries|
  {
    hide Lower, IsSeverity;
    if entries != [] {
      GatesAreValid(ReadGate(read, entries[0]), entries[1..]);
    }
  }

  lemma {:induction false} OverridesAreValid(read: Read<map<string, string>>, entries: seq<Entry>)
    requires forall k | k in read.value :: IsSeverity(read.value[k])
    ensures forall k | k in ReadOverrides(read, entries).value :: IsSeverity(ReadOverrides(read, entries).value[k])
    decreases |entries|
  {
    hide Lower, Text, IsSeverity;
    if entries != [] {
      OverridesAreValid(ReadOverride(read, entries[0]), entries[1..]);
    }
  }

  predicate LowerEcosystems(blocks: seq<Block>) { forall b | b in blocks :: Lower(b.ecosystem) == b.ecosystem }

  lemma {:induction false} BlocksAreValid(read: Read<seq<Block>>, items: seq<Value>)
    requires LowerEcosystems(read.value)
    ensures LowerEcosystems(ReadBlocks(read, items).value)
    decreases |items|
  {
    hide Text, Get, GetOr, Lower;
    if items != [] {
      if items[0].Dict? {
        LowerTwice(Text(GetOr(items[0].entries, "ecosystem", Str("*"))));
      }
      BlocksAreValid(ReadBlock(read, items[0]), items[1..]);
    }
  }

  lemma EnginesAreValid(v: Value)
    ensures ReadEngines(v).problems == [] && ReadEngines(v).value.Some?
        ==> forall e | e in ReadEngines(v).value.value :: IsEngine(e)
  {
    hide IsEngine, Get, GetOr;
    var r := ReadEngines(v);
    if r.problems == [] && r.value.Some? {
      var items := GetOr(v.entries, "enabled", Null).items;
      forall e | e in Texts(items) ensures IsEngine(e) {
        var i :| 0 <= i < |items| && Texts(items)[i] == e;
        assert items[i] in items;
      }
    }
  }

  /** Every policy the reader accepts is valid. */
  lemma AcceptedIsValid(data: seq<Entry>)
    requires FromDict(data).Ok?
    ensures ValidPolicy(FromDict(data).policy)
  {
    var gates := TruthyOr(data, "severity_gates", Dict([]));
    if gates.Dict? {
      GatesAreValid(Read(map[], []), gates.entries);
    }
    EnginesAreValid(GetOr(data, "engines", Null));
    RulesAreValid(GetOr(data, "rules", Null));
    LicensesAreValid(GetOr(data, "licenses", Null));
    DependenciesAreValid(GetOr(data, "dependencies", Null));
    hide Get, GetOr, TruthyOr, Lower, Text, ReadGates, ReadEngines, ReadRules, ReadLicenses, ReadEntropy,
         ReadDependencies, ReadPaths, ReadBaseline,
      IsFailOn, IsSeverity, IsEngine, IsConfidence, IsUnknownAction, IsTopLevelKey, ReadOptionalCount, IsVersionOne;
  }

  lemma RulesAreValid(v: Value)
    ensures var r := ReadRules(v);
            r.problems == [] ==>
              IsConfidence(r.value.minConfidence)
                  && forall k | k in r.value.overrides :: IsSeverity(r.value.overrides[k])
  {
    if v.Dict? {
      var raw := TruthyOr(v.entries, "severity_overrides", Dict([]));
      if raw.Dict? {
        OverridesAreValid(Read(map[], []), raw.entries);
      }
    }
    hide Get, GetOr, TruthyOr, Lower, Text, ReadStrings, ReadOverrides, IsSeverity;
  }

  lemma LicensesAreValid(v: Value)
    ensures var r := ReadLicenses(v);
            r.problems == [] ==> IsUnknownAction(r.value.unknown) && r.value.blocked !! r.value.allowed
  {
    hide Get, GetOr, TruthyOr, Lower, Text, ReadStrings;
  }

  lemma DependenciesAreValid(v: Value)
    ensures LowerEcosystems(ReadDependencies(v).value)
  {
    if v.Dict? {
      var raw := TruthyOr(v.entries, "block", List([]));
      if raw.List? {
        BlocksAreValid(Read([], []), raw.items);
      }
    }
    hide Get, GetOr, TruthyOr, Lower, Text, ReadBlocks;
  }

  // ----- the round trip

  /** What a policy becomes on its way through a document: the ignored rules are sorted, and an empty
      list of engines, which allows none, is written like no list at all, which allows every one. */
  function Stored(p: Policy): Policy {
    p.(ignoreRules := Sorted(p.ignoreRules), engines := if p.engines == Some([]) then None else p.engines)
  }

  lemma {:induction false} TextsOfStrs(xs: seq<string>)
    ensures Texts(Strs(xs)) == xs
  {
    assert forall i | 0 <= i < |xs| :: Texts(Strs(xs))[i] == xs[i];
  }

  lemma StringsRead(entries: seq<Entry>, key: string, place: string, xs: seq<string>)
    requires Get(entries, key) == Some(List(Strs(xs)))
    ensures ReadStrings(entries, key, place) == Read(xs, [])
  {
    TextsOfStrs(xs);
  }

  lemma LowercaseNames(s: string)
    requires IsSeverity(s) || IsFailOn(s) || IsConfidence(s) || IsUnknownAction(s)
    ensures Lower(s) == s
  {
    assert forall i | 0 <= i < |s| :: LowerChar(s[i]) == s[i];
  }

  function AddAll<T>(read: map<string, T>, from: map<string, T>, keys: seq<string>): map<string, T>
    requires forall k | k in keys :: k in from
    decreases |keys|
  {
    if keys == [] then read else AddAll(read[keys[0] := from[keys[0]]], from, keys[1..])
  }

  lemma {:induction false} AddAllAdds<T>(read: map<string, T>, from: map<string, T>, keys: seq<string>)
    requires forall k | k in keys :: k in from
    ensures forall k :: k in AddAll(read, from, keys) <==> k in read || k in keys
    ensures forall k | k in keys :: AddAll(read, from, keys)[k] == from[k]
    ensures forall k | k in read && k !in keys :: AddAll(read, from, keys)[k] == read[k]
    decreases |keys|
  {
    if keys != [] {
      assert keys == [keys[0]] + keys[1..];
      AddAllAdds(read[keys[0] := from[keys[0]]], from, keys[1..]);
    }
  }

  lemma AddSorted<T>(from: map<string, T>)
    ensures forall k :: k in SortedSet(from.Keys) <==> k in from
    ensures AddAll(map[], from, SortedSet(from.Keys)) == from
  {
    var keys := SortedSet(from.Keys);
    SortedSetElements(from.Keys);
    assert forall k :: k in keys <==> k in Elements(keys);
    AddAllAdds(map[], from, keys);
  }

  lemma {:induction false} GatesRead(read: map<string, nat>, gates: map<string, nat>, keys: seq<string>)
    requires forall k | k in keys :: k in gates && IsSeverity(k)
    ensures ReadGates(Read(read, []), GateEntries(gates, keys)) == Read(AddAll(read, gates, keys), [])
    decreases |keys|
  {
    if keys != [] {
      var k := keys[0];
      assert k in keys && forall x | x in keys[1..] :: x in keys;
      LowercaseNames(k);
      hide IsSeverity, Lower;
      GatesRead(read[k := gates[k]], gates, keys[1..]);
      assert GateEntries(gates, keys)[0] == Entry(k, Int(gates[k]))
          && GateEntries(gates, keys)[1..] == GateEntries(gates, keys[1..]);
    }
  }

  lemma {:induction false} OverridesRead(read: map<string, string>, overrides: map<string, string>, keys: seq<string>)
    requires forall k | k in keys :: k in overrides && IsSeverity(overrides[k])
    ensures ReadOverrides(Read(read, []), OverrideEntries(overrides, keys)) == Read(AddAll(read, overrides, keys), [])
    decreases |keys|
  {
    if keys != [] {
      var k := keys[0];
      assert k in keys && forall x | x in keys[1..] :: x in keys;
      LowercaseNames(overrides[k]);
      hide IsSeverity, Lower;
      OverridesRead(read[k := overrides[k]], overrides, keys[1..]);
      assert OverrideEntries(overrides, keys)[0] == Entry(k, Str(overrides[k]));
      assert OverrideEntries(overrides, keys)[1..] == OverrideEntries(overrides, keys[1..]);
    }
  }

  lemma GatesRoundTrip(gates: map<string, nat>)
    requires forall k | k in gates :: IsSeverity(k)
    ensures WriteGates(gates).Dict? && ReadGatesSection(WriteGates(gates)) == Read(gates, [])
  {
    hide IsSeverity, AddAll;
    AddSorted(gates);
    GatesRead(map[], gates, SortedSet(gates.Keys));
  }

  lemma OverridesRoundTrip(overrides: map<string, string>)
    requires forall k | k in overrides :: IsSeverity(overrides[k])
    ensures WriteOverrides(overrides).Dict? && ReadOverrides(Read(map[], []), WriteOverrides(overrides).entries)
        == Read(overrides, [])
  {
    hide IsSeverity, AddAll;
    AddSorted(overrides);
    OverridesRead(map[], overrides, SortedSet(overrides.Keys));
  }

  lemma EnginesRoundTrip(engines: Option<seq<string>>)
    requires engines.Some? ==> forall e | e in engines.value :: IsEngine(e)
    ensures ReadEngines(WriteEngines(engines)) == Read(if engines == Some([]) then None else engines, [])
  {
    hide IsEngine;
    if engines.Some? && engines.value != [] {
      var items := Strs(engines.value);
      TextsOfStrs(engines.value);
      GetAt([Entry("enabled", List(items))], 0);
      forall e | e in items ensures e.Str? && IsEngine(e.s) {
        var i :| 0 <= i < |items| && items[i] == e;
        assert engines.value[i] in engines.value;
      }
    }
  }

  lemma RulesValues(p: Policy)
    ensures WriteRules(p).Dict? && Truthy(WriteRules(p))
    ensures var d := WriteRules(p).entries;
            && Get(d, "ignore") == Some(List(Strs(Sorted(p.ignoreRules))))
                && Get(d, "min_confidence") == Some(Str(p.minConfidence))
            && Get(d, "severity_overrides") == Some(WriteOverrides(p.overrides))
  {
    var d := WriteRules(p).entries;
    assert d[0].key == "ignore" && d[1].key == "min_confidence" && d[2].key == "severity_overrides";
    hide Get, Sorted, WriteOverrides, Strs;
    GetAt(d, 0);
    GetAt(d, 1);
    GetAt(d, 2);
  }

  lemma RulesRoundTrip(p: Policy)
    requires ValidPolicy(p)
    ensures ReadRules(WriteRules(p)) == Read(Rules(Sorted(p.ignoreRules), p.minConfidence, p.overrides), [])
  {
    RulesValues(p);
    LowercaseNames(p.minConfidence);
    OverridesRoundTrip(p.overrides);
    hide Get, Sorted, Lower, ReadOverrides, WriteOverrides, WriteRules, IsSeverity, IsConfidence, ReadStrings, Strs,
         TruthyOr;
    CollectionRead(WriteRules(p).entries, "severity_overrides", WriteOverrides(p.overrides));
    StringsRead(WriteRules(p).entries, "ignore", "rules.ignore", Sorted(p.ignoreRules));
  }

  lemma LicenseValues(l: LicensePolicy)
    ensures WriteLicenses(l).Dict? && Truthy(WriteLicenses(l))
    ensures var d := WriteLicenses(l).entries;
            && Get(d, "allowed") == Some(List(Strs(SortedSet(l.allowed))))
                && Get(d, "warning") == Some(List(Strs(SortedSet(l.warning))))
            && Get(d, "blocked") == Some(List(Strs(SortedSet(l.blocked)))) && Get(d, "unknown") == Some(Str(l.unknown))
  {
    var d := WriteLicenses(l).entries;
    assert d[0].key == "allowed" && d[1].key == "warning" && d[2].key == "blocked" && d[3].key == "unknown";
    hide Get, SortedSet, Strs;
    GetAt(d, 0);
    GetAt(d, 1);
    GetAt(d, 2);
    GetAt(d, 3);
  }

  lemma LicensesRoundTrip(l: LicensePolicy)
    requires IsUnknownAction(l.unknown) && l.blocked !! l.allowed
    ensures ReadLicenses(WriteLicenses(l)) == Read(l, [])
  {
    LicenseListsRead(l);
    UnknownRead(l);
    assert Truthy(WriteLicenses(l));
    hide Get, GetOr, SortedSet, Lower, Text, Elements, IsUnknownAction, ReadStrings, WriteLicenses, Strs;
    NothingWrong();
  }

  lemma NothingWrong()
    ensures [] + [] + [] + Problem(true, "licenses.unknown") + Problem(true, "licenses") == []
  {
  }

  lemma UnknownRead(l: LicensePolicy)
    requires IsUnknownAction(l.unknown)
    ensures WriteLicenses(l).Dict? && Lower(Text(GetOr(WriteLicenses(l).entries, "unknown", Str("warn")))) == l.unknown
  {
    LicenseValues(l);
    LowercaseNames(l.unknown);
    hide Get, WriteLicenses, Lower, SortedSet, Strs, IsUnknownAction;
  }

  lemma LicenseListsRead(l: LicensePolicy)
    ensures WriteLicenses(l).Dict?
    ensures var d := WriteLicenses(l).entries;
            var allowed := ReadStrings(d, "allowed", "licenses.allowed");
            var warning := ReadStrings(d, "warning", "licenses.warning");
            var blocked := ReadStrings(d, "blocked", "licenses.blocked");
            && Elements(allowed.value) == l.allowed && Elements(warning.value) == l.warning
                && Elements(blocked.value) == l.blocked
            && allowed.problems == [] && warning.problems == [] && blocked.problems == []
  {
    hide Get, SortedSet, Elements, ReadStrings, WriteLicenses, Strs;
    LicenseValues(l);
    var d := WriteLicenses(l).entries;
    StringsRead(d, "allowed", "licenses.allowed", SortedSet(l.allowed));
    StringsRead(d, "warning", "licenses.warning", SortedSet(l.warning));
    StringsRead(d, "blocked", "licenses.blocked", SortedSet(l.blocked));
    SortedSetElements(l.allowed);
    SortedSetElements(l.warning);
    SortedSetElements(l.blocked);
  }

  lemma BlockRoundTrip(b: Block)
    requires Lower(b.ecosystem) == b.ecosystem
    ensures WriteBlock(b).Dict? && BlockOf(WriteBlock(b).entries) == b && Get(WriteBlock(b).entries, "name").Some?
  {
    var entries := WriteBlock(b).entries;
    assert entries[0].key == "ecosystem" && entries[1].key == "name" && entries[2].key == "reason";
    hide Get, Lower;
    GetAt(entries, 0);
    GetAt(entries, 1);
    GetAt(entries, 2);
  }

  lemma {:induction false} BlocksRoundTrip(read: seq<Block>, blocks: seq<Block>)
    requires LowerEcosystems(blocks)
    ensures ReadBlocks(Read(read, []), WriteBlocks(blocks)) == Read(read + blocks, [])
    decreases |blocks|
  {
    hide Lower, BlockOf, WriteBlock, Get;
    if blocks == [] {
      assert read + blocks == read;
    } else {
      assert blocks[0] in blocks && forall b | b in blocks[1..] :: b in blocks;
      BlockRoundTrip(blocks[0]);
      WriteBlocksUnfold(blocks);
      hide WriteBlocks;
      BlocksRoundTrip(read + [blocks[0]], blocks[1..]);
      AppendOne(read, blocks[0], blocks[1..]);
      assert [blocks[0]] + blocks[1..] == blocks;
    }
  }

  lemma WriteBlocksUnfold(blocks: seq<Block>)
    requires blocks != []
    ensures WriteBlocks(blocks) != [] && WriteBlocks(blocks)[0] == WriteBlock(blocks[0])
        && WriteBlocks(blocks)[1..] == WriteBlocks(blocks[1..])
  {
    hide WriteBlock;
  }

  lemma DependenciesRoundTrip(blocks: seq<Block>)
    requires LowerEcosystems(blocks)
    ensures ReadDependencies(Dict([Entry("block", List(WriteBlocks(blocks)))])) == Read(blocks, [])
  {
    BlocksRoundTrip([], blocks);
    assert [] + blocks == blocks;
    var raw := List(WriteBlocks(blocks));
    var d := [Entry("block", raw)];
    assert d[0] == Entry("block", raw) && Truthy(Dict(d));
    hide LowerEcosystems, Get, ReadBlocks, WriteBlocks, TruthyOr;
    GetAt(d, 0);
    CollectionRead(d, "block", raw);
  }

  lemma PathsRoundTrip(excludes: seq<string>, dirs: seq<string>)
    ensures ReadPaths(Dict([Entry("exclude", List(Strs(excludes))), Entry("exclude_dirs", List(Strs(dirs)))]))
        == Read(Paths(excludes, dirs), [])
  {
    var entries := [Entry("exclude", List(Strs(excludes))), Entry("exclude_dirs", List(Strs(dirs)))];
    assert entries[0].key == "exclude" && entries[1].key == "exclude_dirs";
    hide Get, ReadStrings;
    GetAt(entries, 0);
    GetAt(entries, 1);
    StringsRead(entries, "exclude", "paths.exclude", excludes);
    StringsRead(entries, "exclude_dirs", "paths.exclude_dirs", dirs);
  }

  lemma BaselineRoundTrip(path: Value, age: Option<nat>)
    ensures ReadBaseline(Dict([Entry("path", path), Entry("max_age_days", OptionalCount(age))]))
        == Read(BaselineSettings(path, age), [])
  {
    var entries := [Entry("path", path), Entry("max_age_days", OptionalCount(age))];
    assert entries[0].key == "path" && entries[1].key == "max_age_days";
    hide Get;
    GetAt(entries, 0);
    GetAt(entries, 1);
  }

  /** The keys of the written document, in order. */
  lemma WrittenKeys(p: Policy)
    ensures |ToDict(p)| == 12
    ensures forall i | 0 <= i < 12 :: IsTopLevelKey(ToDict(p)[i].key)
    ensures forall i, j | 0 <= j < i < 12 :: ToDict(p)[j].key != ToDict(p)[i].key
  {
    hide WriteGates, WriteEngines, WriteRules, WriteLicenses, WriteBlocks;
    var keys := ["version", "name", "fail_on", "max_risk_score", "severity_gates", "engines",
                 "rules", "licenses", "secrets", "dependencies", "paths", "baseline"];
    assert forall i | 0 <= i < 12 :: ToDict(p)[i].key == keys[i];
    DistinctKeys(keys);
  }

  lemma DistinctKeys(keys: seq<string>)
    requires keys == ["version", "name", "fail_on", "max_risk_score", "severity_gates", "engines",
                      "rules", "licenses", "secrets", "dependencies", "paths", "baseline"]
    ensures forall i, j | 0 <= j < i < 12 :: keys[j] != keys[i]
    ensures forall i | 0 <= i < 12 :: IsTopLevelKey(keys[i])
  {
    assert forall k | k in keys[..6] ::
        k == "version" || k == "name" || k == "fail_on" || k == "max_risk_score" || k == "severity_gates"
            || k == "engines";
  }

  lemma WrittenAt(p: Policy, i: nat)
    requires i < 12
    ensures |ToDict(p)| == 12 && Get(ToDict(p), ToDict(p)[i].key) == Some(ToDict(p)[i].value)
  {
    WrittenKeys(p);
    hide ToDict;
    GetAt(ToDict(p), i);
  }

  /** Reading back what a scan stores: every valid policy is accepted and comes back the same, but for
      the order of the ignored rules and an empty engine list. */
  lemma DocumentRoundTrip(p: Policy)
    requires ValidPolicy(p)
    ensures FromDict(ToDict(p)) == Ok(Stored(p))
  {
    WrittenPolicyRead(p);
    NoProblems(p);
    hide ReadAll, ToDict;
  }

  /** What the sections of the written document read as. */
  predicate SectionsReadBack(p: Policy) {
    && ReadGatesSection(TruthyOr(ToDict(p), "severity_gates", Dict([]))) == Read(p.gates, [])
    && ReadEngines(GetOr(ToDict(p), "engines", Null)) == Read(Stored(p).engines, [])
    && ReadRules(GetOr(ToDict(p), "rules", Null)) == Read(Rules(Sorted(p.ignoreRules), p.minConfidence, p.overrides),
        [])
    && ReadLicenses(GetOr(ToDict(p), "licenses", Null)) == Read(p.license, [])
    && ReadEntropy(GetOr(ToDict(p), "secrets", Null)) == Read(p.entropyThreshold, [])
    && ReadDependencies(GetOr(ToDict(p), "dependencies", Null)) == Read(p.blocks, [])
    && ReadPaths(GetOr(ToDict(p), "paths", Null)) == Read(Paths(p.pathExcludes, p.excludeDirs), [])
    && ReadBaseline(GetOr(ToDict(p), "baseline", Null)) == Read(BaselineSettings(p.baselinePath, p.baselineMaxAge), [])
  }

  lemma SectionsRead(p: Policy)
    requires ValidPolicy(p)
    ensures SectionsReadBack(p)
  {
    GatesSectionRead(p);
    RulesAndLicensesRead(p);
    ListSectionsRead(p);
    hide ReadGatesSection, ReadEngines, ReadRules, ReadLicenses, ReadEntropy, ReadDependencies, ReadPaths, ReadBaseline,
      TruthyOr, GetOr, ToDict, Sorted, Stored, ValidPolicy;
  }

  lemma GatesSectionRead(p: Policy)
    requires ValidPolicy(p)
    ensures ReadGatesSection(TruthyOr(ToDict(p), "severity_gates", Dict([]))) == Read(p.gates, [])
  {
    WrittenValues(p);
    GatesRoundTrip(p.gates);
    hide ToDict, ReadGatesSection, WriteGates, Get, TruthyOr;
    CollectionRead(ToDict(p), "severity_gates", WriteGates(p.gates));
  }

  lemma RulesAndLicensesRead(p: Policy)
    requires ValidPolicy(p)
    ensures ReadEngines(GetOr(ToDict(p), "engines", Null)) == Read(Stored(p).engines, [])
    ensures ReadRules(GetOr(ToDict(p), "rules", Null)) == Read(Rules(Sorted(p.ignoreRules), p.minConfidence,
        p.overrides), [])
    ensures ReadLicenses(GetOr(ToDict(p), "licenses", Null)) == Read(p.license, [])
  {
    WrittenValues(p);
    EnginesRoundTrip(p.engines);
    RulesRoundTrip(p);
    LicensesRoundTrip(p.license);
    assert Stored(p).engines == if p.engines == Some([]) then None else p.engines;
    hide ToDict, ReadEngines, ReadRules, ReadLicenses, WriteEngines, WriteRules, WriteLicenses, WriteGates, WriteBlocks,
         Get, Sorted, Stored, ValidPolicy;
  }

  lemma ListSectionsRead(p: Policy)
    requires ValidPolicy(p)
    ensures ReadEntropy(GetOr(ToDict(p), "secrets", Null)) == Read(p.entropyThreshold, [])
    ensures ReadDependencies(GetOr(ToDict(p), "dependencies", Null)) == Read(p.blocks, [])
    ensures ReadPaths(GetOr(ToDict(p), "paths", Null)) == Read(Paths(p.pathExcludes, p.excludeDirs), [])
    ensures ReadBaseline(GetOr(ToDict(p), "baseline", Null)) == Read(BaselineSettings(p.baselinePath, p.baselineMaxAge),
        [])
  {
    WrittenValues(p);
    assert LowerEcosystems(p.blocks);
    hide ToDict, Get, ReadDependencies, ReadPaths, ReadBaseline, ReadEntropy, WriteEngines, WriteRules, WriteLicenses,
         WriteGates, WriteBlocks, Strs,
      OptionalCount, LowerEcosystems, ValidPolicy;
    DependenciesRoundTrip(p.blocks);
    PathsRoundTrip(p.pathExcludes, p.excludeDirs);
    BaselineRoundTrip(p.baselinePath, p.baselineMaxAge);
    EntropyRoundTrip(p.entropyThreshold);
  }

  /** What the plain values of the written document read as. */
  lemma ValuesRead(p: Policy)
    requires ValidPolicy(p)
    ensures var d := ToDict(p);
            && Text(GetOr(d, "name", Str("ironclad-policy"))) == p.name
            && Lower(Text(GetOr(d, "fail_on", Str("high")))) == p.failOn && IsFailOn(p.failOn)
            && ReadOptionalCount(GetOr(d, "max_risk_score", Null), "max_risk_score") == Read(p.maxRiskScore, [])
            && IsVersionOne(GetOr(d, "version", Int(1)))
  {
    WrittenValues(p);
    LowercaseNames(p.failOn);
    hide ToDict, Get, WriteEngines, WriteRules, WriteLicenses, WriteGates, WriteBlocks, Strs, Lower, IsFailOn;
  }

  lemma WrittenPolicyRead(p: Policy)
    requires ValidPolicy(p)
    ensures ReadAll(ToDict(p)).value == Stored(p)
  {
    SectionsRead(p);
    ValuesRead(p);
    hide ToDict, GetOr, TruthyOr, Text, ReadGatesSection, ReadEngines, ReadRules, ReadLicenses, ReadDependencies,
         ReadPaths, ReadBaseline, ReadEntropy,
      ReadOptionalCount, Lower, Sorted, IsFailOn, IsTopLevelKey, ValidPolicy, Problem;
  }

  lemma NoProblems(p: Policy)
    requires ValidPolicy(p)
    ensures ReadAll(ToDict(p)).problems == []
  {
    SectionsRead(p);
    ValuesRead(p);
    WrittenKeys(p);
    TopLevelOnly(ToDict(p));
    hide ToDict, GetOr, TruthyOr, Text, ReadGatesSection, ReadEngines, ReadRules, ReadLicenses, ReadDependencies,
         ReadPaths, ReadBaseline, ReadEntropy,
      ReadOptionalCount, Lower, Sorted, IsFailOn, IsTopLevelKey, ValidPolicy, Stored;
  }

  lemma TopLevelOnly(data: seq<Entry>)
    requires forall i | 0 <= i < |data| :: IsTopLevelKey(data[i].key)
    ensures forall e | e in data :: IsTopLevelKey(e.key)
  {
  }

  lemma EntropyRoundTrip(r: real)
    ensures ReadEntropy(Dict([Entry("entropy_threshold", Float(r))])) == Read(r, [])
  {
    GetAt([Entry("entropy_threshold", Float(r))], 0);
  }

  lemma WrittenValues(p: Policy)
    ensures var d := ToDict(p);
            && Get(d, "version") == Some(Int(1)) && Get(d, "name") == Some(Str(p.name))
                && Get(d, "fail_on") == Some(Str(p.failOn))
            && Get(d, "max_risk_score") == Some(OptionalCount(p.maxRiskScore))
                && Get(d, "severity_gates") == Some(WriteGates(p.gates))
            && Get(d, "engines") == Some(WriteEngines(p.engines)) && Get(d, "rules") == Some(WriteRules(p))
            && Get(d, "licenses") == Some(WriteLicenses(p.license))
            && Get(d, "secrets") == Some(Dict([Entry("entropy_threshold", Float(p.entropyThreshold))]))
            && Get(d, "dependencies") == Some(Dict([Entry("block", List(WriteBlocks(p.blocks)))]))
            && Get(d, "paths") == Some(Dict([Entry("exclude", List(Strs(p.pathExcludes))),
                Entry("exclude_dirs", List(Strs(p.excludeDirs)))]))
            && Get(d, "baseline") == Some(Dict([Entry("path", p.baselinePath),
                Entry("max_age_days", OptionalCount(p.baselineMaxAge))]))
  {
    hide Get, WriteGates, WriteEngines, WriteRules, WriteLicenses, WriteBlocks, Strs;
    WrittenAt(p, 0);
    WrittenAt(p, 1);
    WrittenAt(p, 2);
    WrittenAt(p, 3);
    WrittenAt(p, 4);
    WrittenAt(p, 5);
    WrittenAt(p, 6);
    WrittenAt(p, 7);
    WrittenAt(p, 8);
    WrittenAt(p, 9);
    WrittenAt(p, 10);
    WrittenAt(p, 11);
  }

  /** The engines a scan under a policy runs, of those the configuration enables. */
  function EnabledEngines(configured: seq<string>, p: Policy): seq<string>
    decreases |configured|
  {
    if p.engines.None? || configured == [] then configured
    else if configured[0] in p.engines.value then [configured[0]] + EnabledEngines(configured[1..], p)
    else EnabledEngines(configured[1..], p)
  }

  lemma {:induction false} NoEngines(configured: seq<string>, p: Policy)
    requires p.engines == Some([])
    ensures EnabledEngines(configured, p) == []
    decreases |configured|
  {
    if configured != [] {
      NoEngines(configured[1..], p);
    }
  }

  lemma {:induction false} SameEngines(configured: seq<string>, p: Policy, q: Policy)
    requires p.engines == q.engines
    ensures EnabledEngines(configured, p) == EnabledEngines(configured, q)
    decreases |configured|
  {
    if configured != [] && p.engines.Some? {
      SameEngines(configured[1..], p, q);
    }
  }

  /** The stored policy enables the same engines as the policy that ran, for every configuration,
      exactly when the policy is not one with an empty engine list. */
  lemma EnginesSurviveExactlyWhen(p: Policy)
    ensures (forall configured ::
        EnabledEngines(configured, Stored(p)) == EnabledEngines(configured, p)) <==> p.engines != Some([])
  {
    if p.engines == Some([]) {
      NoEngines(["secrets"], p);
      assert EnabledEngines(["secrets"], Stored(p)) == ["secrets"];
    } else {
      forall configured ensures EnabledEngines(configured, Stored(p)) == EnabledEngines(configured, p) {
        SameEngines(configured, p, Stored(p));
      }
    }
  }

  // ----- a threshold written as null

  function Without(entries: seq<Entry>, key: string): seq<Entry> {
    if entries == [] then []
    else (if entries[0].key == key then [] else [entries[0]]) + Without(entries[1..], key)
  }

  lemma {:induction false} GetWithout(entries: seq<Entry>, key: string, other: string)
    ensures Get(Without(entries, key), other) == if other == key then None else Get(entries, other)
    ensures forall e | e in entries :: e.key == key || e in Without(entries, key)
    ensures forall e | e in Without(entries, key) :: e in entries
  {
    if entries != [] {
      var rest := Without(entries[1..], key);
      GetWithout(entries[1..], key, other);
      assert ([entries[0]] + rest)[1..] == rest && [] + rest == rest;
    }
  }

  /** Two documents say the same in every section. */
  predicate SectionsAgree(data: seq<Entry>, other: seq<Entry>) {
    && GetOr(other, "name", Str("ironclad-policy")) == GetOr(data, "name", Str("ironclad-policy"))
    && GetOr(other, "version", Int(1)) == GetOr(data, "version", Int(1))
    && GetOr(other, "max_risk_score", Null) == GetOr(data, "max_risk_score", Null)
    && TruthyOr(other, "severity_gates", Dict([])) == TruthyOr(data, "severity_gates", Dict([]))
    && GetOr(other, "engines", Null) == GetOr(data, "engines", Null)
    && GetOr(other, "rules", Null) == GetOr(data, "rules", Null)
    && GetOr(other, "licenses", Null) == GetOr(data, "licenses", Null)
    && GetOr(other, "secrets", Null) == GetOr(data, "secrets", Null)
    && GetOr(other, "dependencies", Null) == GetOr(data, "dependencies", Null)
    && GetOr(other, "paths", Null) == GetOr(data, "paths", Null)
    && GetOr(other, "baseline", Null) == GetOr(data, "baseline", Null)
  }

  lemma KeyWithout(data: seq<Entry>, key: string, v: Value)
    requires key != "fail_on"
    ensures GetOr(Without(data, "fail_on"), key, v) == GetOr(data, key, v)
    ensures TruthyOr(Without(data, "fail_on"), key, v) == TruthyOr(data, key, v)
  {
    hide Get, Without, Truthy;
    GetWithout(data, "fail_on", key);
  }

  lemma SectionsWithout(data: seq<Entry>)
    ensures SectionsAgree(data, Without(data, "fail_on"))
  {
    hide GetOr, TruthyOr, Without;
    KeyWithout(data, "name", Str("ironclad-policy"));
    KeyWithout(data, "version", Int(1));
    KeyWithout(data, "max_risk_score", Null);
    KeyWithout(data, "severity_gates", Dict([]));
    KeyWithout(data, "engines", Null);
    KeyWithout(data, "rules", Null);
    KeyWithout(data, "licenses", Null);
    KeyWithout(data, "secrets", Null);
    KeyWithout(data, "dependencies", Null);
    KeyWithout(data, "paths", Null);
    KeyWithout(data, "baseline", Null);
  }

  predicate TopLevelKeys(data: seq<Entry>) { forall e | e in data :: IsTopLevelKey(e.key) }

  lemma TopLevelWithout(data: seq<Entry>)
    ensures TopLevelKeys(Without(data, "fail_on")) <==> TopLevelKeys(data)
    ensures Get(Without(data, "fail_on"), "fail_on") == None
  {
    assert IsTopLevelKey("fail_on");
    hide IsTopLevelKey, Get, Without;
    GetWithout(data, "fail_on", "fail_on");
  }

  /** It is read as "none", while the document without the line is the same policy with "high". */
  lemma NullThreshold(data: seq<Entry>)
    requires Get(data, "fail_on") == Some(Null) && FromDict(data).Ok?
    ensures FromDict(data).policy.failOn == "none"
    ensures FromDict(Without(data, "fail_on")) == Ok(FromDict(data).policy.(failOn := "high"))
  {
    hide *;
    NullRead(data);
    NullRead(Without(data, "fail_on"));
    SectionsWithout(data);
    TopLevelWithout(data);
    SameValue(data, Without(data, "fail_on"));
    SameProblems(data, Without(data, "fail_on"));
    Accepted(data);
    Accepted(Without(data, "fail_on"));
  }

  lemma NullRead(data: seq<Entry>)
    ensures Get(data, "fail_on") == Some(Null) ==> ReadAll(data).value.failOn == "none"
    ensures Get(data, "fail_on") == None ==> ReadAll(data).value.failOn == "high"
    ensures IsFailOn("high") && IsFailOn("none")
  {
    assert Lower("None") == "none";
    LowercaseNames("high");
    hide Get, ReadGatesSection, ReadEngines, ReadRules, ReadLicenses, ReadDependencies, ReadPaths, ReadBaseline,
         ReadEntropy, ReadOptionalCount, Lower, Problem;
  }

  lemma Accepted(data: seq<Entry>)
    ensures FromDict(data).Ok? <==> ReadAll(data).problems == []
    ensures FromDict(data).Ok? ==> FromDict(data).policy == ReadAll(data).value
  {
    hide ReadAll;
  }

  lemma SameValue(data: seq<Entry>, other: seq<Entry>)
    requires SectionsAgree(data, other)
    ensures ReadAll(other).value == ReadAll(data).value.(failOn := ReadAll(other).value.failOn)
  {
    hide GetOr, TruthyOr, ReadGatesSection, ReadEngines, ReadRules, ReadLicenses, ReadDependencies, ReadPaths,
         ReadBaseline, ReadEntropy, ReadOptionalCount, Lower, Problem, IsVersionOne, IsFailOn, IsTopLevelKey;
  }

  /** The problems of the sections. */
  function SectionProblems(data: seq<Entry>): seq<string> {
    ReadOptionalCount(GetOr(data, "max_risk_score", Null), "max_risk_score").problems
    + ReadGatesSection(TruthyOr(data, "severity_gates", Dict([]))).problems
    + ReadEngines(GetOr(data, "engines", Null)).problems + ReadRules(GetOr(data, "rules", Null)).problems
    + ReadLicenses(GetOr(data, "licenses", Null)).problems + ReadEntropy(GetOr(data, "secrets", Null)).problems
    + ReadDependencies(GetOr(data, "dependencies", Null)).problems + ReadPaths(GetOr(data, "paths", Null)).problems
    + ReadBaseline(GetOr(data, "baseline", Null)).problems
  }

  lemma ProblemsAre(data: seq<Entry>)
    ensures ReadAll(data).problems == [] <==>
      && IsVersionOne(GetOr(data, "version", Int(1))) && IsFailOn(ReadAll(data).value.failOn)
      && SectionProblems(data) == [] && TopLevelKeys(data)
  {
    hide GetOr, TruthyOr, ReadGatesSection, ReadEngines, ReadRules, ReadLicenses, ReadDependencies, ReadPaths,
         ReadBaseline, ReadEntropy, ReadOptionalCount, Lower, IsVersionOne, IsFailOn, IsTopLevelKey;
  }

  lemma SameProblems(data: seq<Entry>, other: seq<Entry>)
    requires SectionsAgree(data, other) && IsFailOn(ReadAll(data).value.failOn) && IsFailOn(ReadAll(other).value.failOn)
    requires TopLevelKeys(other) <==> TopLevelKeys(data)
    ensures ReadAll(other).problems == [] <==> ReadAll(data).problems == []
  {
    ProblemsAre(data);
    ProblemsAre(other);
    SameSectionProblems(data, other);
    SameVersion(data, other);
    hide GetOr, ReadAll, SectionProblems, TopLevelKeys, SectionsAgree, IsVersionOne, IsFailOn;
  }

  lemma SameVersion(data: seq<Entry>, other: seq<Entry>)
    requires SectionsAgree(data, other)
    ensures GetOr(other, "version", Int(1)) == GetOr(data, "version", Int(1))
  {
    hide GetOr, TruthyOr;
  }

  lemma SameSectionProblems(data: seq<Entry>, other: seq<Entry>)
    requires SectionsAgree(data, other)
    ensures SectionProblems(other) == SectionProblems(data)
  {
    hide GetOr, TruthyOr, ReadGatesSection, ReadEngines, ReadRules, ReadLicenses, ReadDependencies, ReadPaths,
         ReadBaseline, ReadEntropy, ReadOptionalCount;
  }
}
