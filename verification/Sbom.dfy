/** The CycloneDX generator against the validator that ships beside it: what a package URL looks like,
    when two of them are equal, and exactly which dependency lists give a document the validator
    accepts. */
module Sbom {
  import opened Sequences
  import opened Strings
  import V = Versions
  import Spdx

  // ----- package URLs

  datatype Dependency = Dependency(ecosystem: string, name: string, version: string, manifest: string,
      declaredSpec: string)

  function PurlType(ecosystem: string): string {
    match ecosystem
    case "python" => "pypi"
    case "javascript" => "npm"
    case "go" => "golang"
    case "ruby" => "gem"
    case "php" => "composer"
    case "java" => "maven"
    case "rust" => "cargo"
    case "nuget" => "nuget"
    case _ => "generic"
  }

  predicate KnownEcosystem(e: string) { e in ["python", "javascript", "go", "ruby", "php", "java", "rust", "nuget"] }

  /** `name.rpartition("/")`: what stands before and after the last slash; no slash leaves it all after. */
  function LastSlash(name: string): (i: int)
    ensures -1 <= i < |name|
    ensures i >= 0 ==> name[i] == '/'
  {
    if name == "" then -1
    else if name[|name| - 1] == '/' then |name| - 1
    else LastSlash(name[..|name| - 1])
  }

  function Namespace(name: string): string { if LastSlash(name) < 0 then "" else name[..LastSlash(name)] }

  function Bare(name: string): string { name[LastSlash(name) + 1..] }

  function Purl(ecosystem: string, name: string, version: string): string {
    var type_ := PurlType(ecosystem);
    var namespace, bare := Namespace(name), Bare(name);
    if type_ == "maven" && namespace != "" then "pkg:" + type_ + "/" + namespace + "/" + bare + "@" + version
    else if namespace != "" && type_ in ["npm", "composer", "golang"] then
        "pkg:" + type_ + "/" + namespace + "/" + bare + "@" + version
    else "pkg:" + type_ + "/" + name + "@" + version
  }

  /** Every branch prints the same shape. */
  lemma PurlShape(ecosystem: string, name: string, version: string)
    ensures Purl(ecosystem, name, version) == "pkg:" + PurlType(ecosystem) + "/" + name + "@" + version
  {
    hide PurlType;
    if Namespace(name) != "" {
      NameParts(name);
      hide Namespace, Bare;
      Concat4("pkg:" + PurlType(ecosystem) + "/", Namespace(name), "/", Bare(name));
    }
  }

  /** What a package URL starts with in each ecosystem: the package types of the eight, and one for all
      others. */
  lemma PurlOfEcosystem(ecosystem: string, name: string, version: string)
    ensures Purl("python", name, version) == "pkg:pypi/" + name + "@" + version
    ensures Purl("javascript", name, version) == "pkg:npm/" + name + "@" + version
    ensures Purl("go", name, version) == "pkg:golang/" + name + "@" + version
    ensures Purl("ruby", name, version) == "pkg:gem/" + name + "@" + version
    ensures Purl("php", name, version) == "pkg:composer/" + name + "@" + version
    ensures Purl("java", name, version) == "pkg:maven/" + name + "@" + version
    ensures Purl("rust", name, version) == "pkg:cargo/" + name + "@" + version
    ensures Purl("nuget", name, version) == "pkg:nuget/" + name + "@" + version
    ensures !KnownEcosystem(ecosystem) ==> Purl(ecosystem, name, version) == "pkg:generic/" + name + "@" + version
  {
    TypesOfEcosystems();
    hide Purl, PurlType, KnownEcosystem;
    PurlStart("python", "pypi", "pkg:pypi/", name, version);
    PurlStart("javascript", "npm", "pkg:npm/", name, version);
    PurlStart("go", "golang", "pkg:golang/", name, version);
    PurlStart("ruby", "gem", "pkg:gem/", name, version);
    PurlStart("php", "composer", "pkg:composer/", name, version);
    PurlStart("java", "maven", "pkg:maven/", name, version);
    PurlStart("rust", "cargo", "pkg:cargo/", name, version);
    PurlStart("nuget", "nuget", "pkg:nuget/", name, version);
    if !KnownEcosystem(ecosystem) {
      OthersAreGeneric(ecosystem);
      PurlStart(ecosystem, "generic", "pkg:generic/", name, version);
    }
  }

  lemma TypesOfEcosystems()
    ensures PurlType("python") == "pypi" && PurlType("javascript") == "npm"
    ensures PurlType("go") == "golang" && PurlType("ruby") == "gem"
    ensures PurlType("php") == "composer" && PurlType("java") == "maven"
    ensures PurlType("rust") == "cargo" && PurlType("nuget") == "nuget"
  {
  }

  lemma PurlStart(ecosystem: string, type_: string, start: string, name: string, version: string)
    requires PurlType(ecosystem) == type_ && "pkg:" + type_ + "/" == start
    ensures Purl(ecosystem, name, version) == start + name + "@" + version
  {
    PurlShape(ecosystem, name, version);
    hide Purl, PurlType;
  }

  lemma OthersAreGeneric(ecosystem: string)
    requires !KnownEcosystem(ecosystem)
    ensures PurlType(ecosystem) == "generic"
  {
  }

  lemma NameParts(name: string)
    requires Namespace(name) != ""
    ensures name == Namespace(name) + "/" + Bare(name)
  {
  }

  predicate NoSlash(s: string) { '/' !in s }

  predicate NoAt(s: string) { '@' !in s }

  lemma TypesAreWords(ecosystem: string)
    ensures NoSlash(PurlType(ecosystem))
  {
  }

  lemma TypesDiffer(a: string, b: string)
    requires KnownEcosystem(a) && KnownEcosystem(b) && PurlType(a) == PurlType(b)
    ensures a == b
  {
    var types := ["pypi", "npm", "golang", "gem", "composer", "maven", "cargo", "nuget"];
    assert |"pypi"| == 4 && |"npm"| == 3 && |"golang"| == 6 && |"gem"| == 3 && |"composer"| == 8 && |"maven"| == 5
        && |"cargo"| == 5 && |"nuget"| == 5;
    assert "npm"[0] == 'n' && "gem"[0] == 'g' && "maven"[0] == 'm' && "cargo"[0] == 'c' && "nuget"[0] == 'n';
  }

  /** Over the eight ecosystems, with versions that hold no @, a package URL says which package it names. */
  lemma PurlIsInjective(e: string, n: string, v: string, e': string, n': string, v': string)
    requires KnownEcosystem(e) && KnownEcosystem(e') && NoAt(v) && NoAt(v')
    requires Purl(e, n, v) == Purl(e', n', v')
    ensures e == e' && n == n' && v == v'
  {
    PurlShape(e, n, v);
    PurlShape(e', n', v');
    TypesAreWords(e);
    TypesAreWords(e');
    PurlParts(PurlType(e), n, v, PurlType(e'), n', v');
    TypesDiffer(e, e');
    hide Purl, PurlType;
  }

  lemma PurlParts(t: string, n: string, v: string, t': string, n': string, v': string)
    requires NoSlash(t) && NoSlash(t') && NoAt(v) && NoAt(v')
    requires "pkg:" + t + "/" + n + "@" + v == "pkg:" + t' + "/" + n' + "@" + v'
    ensures t == t' && n == n' && v == v'
  {
    SplitsOneWay("pkg:" + t + "/" + n, v, "pkg:" + t' + "/" + n', v', '@');
    var a, b := "pkg:" + t, "pkg:" + t';
    SplitsOneWay(a, n, b, n', '/');
    assert a[4..] == t && b[4..] == t';
  }

  // ----- components

  datatype Component = Component(ecosystem: string, name: string, version: string, license: string, purl: string,
      manifest: string,
                                 declaredSpec: string)

  datatype Key = Key(ecosystem: string, name: string, version: string)

  function VersionOf(d: Dependency): string { if d.version == "" then "unknown" else d.version }

  function KeyOf(d: Dependency): Key { Key(d.ecosystem, Lower(d.name), VersionOf(d)) }

  type LicenseDb = map<string, map<string, string>>

  function LicenseFor(d: Dependency, db: LicenseDb): string {
    if d.ecosystem !in db then "UNKNOWN"
    else if Lower(d.name) in db[d.ecosystem] then db[d.ecosystem][Lower(d.name)]
    else if d.name in db[d.ecosystem] then db[d.ecosystem][d.name]
    else "UNKNOWN"
  }

  function PurlOf(d: Dependency): string { Purl(d.ecosystem, d.name, VersionOf(d)) }

  function ComponentOf(d: Dependency, db: LicenseDb): (c: Component)
    ensures c.purl == PurlOf(d)
  {
    Component(d.ecosystem, d.name, VersionOf(d), LicenseFor(d, db), PurlOf(d), d.manifest,
              if d.declaredSpec == "" then "==" + VersionOf(d) else d.declaredSpec)
  }

  /** The first dependency of each key that has not been seen. */
  function Kept(deps: seq<Dependency>, seen: set<Key>): seq<Dependency>
    decreases |deps|
  {
    if deps == [] then []
    else if KeyOf(deps[0]) in seen then Kept(deps[1..], seen)
    else [deps[0]] + Kept(deps[1..], seen + {KeyOf(deps[0])})
  }

  lemma {:induction false} KeptHasDistinctKeys(deps: seq<Dependency>, seen: set<Key>)
    ensures var r := Kept(deps, seen);
            && (forall d | d in r :: d in deps && KeyOf(d) !in seen)
            && (forall i, j | 0 <= i < j < |r| :: KeyOf(r[i]) != KeyOf(r[j]))
    decreases |deps|
  {
    hide KeyOf;
    if deps != [] {
      KeptHasDistinctKeys(deps[1..], if KeyOf(deps[0]) in seen then seen else seen + {KeyOf(deps[0])});
    }
  }

  function ComponentsOf(deps: seq<Dependency>, db: LicenseDb): (r: seq<Component>)
    ensures |r| == |deps| && forall i | 0 <= i < |deps| :: r[i] == ComponentOf(deps[i], db)
  {
    seq(|deps|, i requires 0 <= i < |deps| => ComponentOf(deps[i], db))
  }

  /** The order of the component list: ecosystem, then name in lower case, then version. */
  predicate ComponentLess(a: Component, b: Component) {
    || V.StringLess(a.ecosystem, b.ecosystem)
    || (a.ecosystem == b.ecosystem && V.StringLess(Lower(a.name), Lower(b.name)))
    || (a.ecosystem == b.ecosystem && Lower(a.name) == Lower(b.name) && V.StringLess(a.version, b.version))
  }

  function Inserted(c: Component, cs: seq<Component>): seq<Component> {
    if cs == [] || !ComponentLess(cs[0], c) then [c] + cs else [cs[0]] + Inserted(c, cs[1..])
  }

  function SortedComponents(cs: seq<Component>): seq<Component> {
    if cs == [] then [] else Inserted(cs[0], SortedComponents(cs[1..]))
  }

  lemma {:induction false} InsertedIsPermutation(c: Component, cs: seq<Component>)
    ensures multiset(Inserted(c, cs)) == multiset(cs) + multiset{c}
  {
    hide ComponentLess;
    if cs != [] && ComponentLess(cs[0], c) {
      InsertedIsPermutation(c, cs[1..]);
      assert cs == [cs[0]] + cs[1..];
    }
  }

  lemma {:induction false} SortIsPermutation(cs: seq<Component>)
    ensures multiset(SortedComponents(cs)) == multiset(cs)
  {
    hide Inserted;
    if cs != [] {
      SortIsPermutation(cs[1..]);
      InsertedIsPermutation(cs[0], SortedComponents(cs[1..]));
      assert cs == [cs[0]] + cs[1..];
    }
  }

  function Components(deps: seq<Dependency>, db: LicenseDb): seq<Component> {
    SortedComponents(ComponentsOf(Kept(deps, {}), db))
  }

  // ----- the order of the list

  /** The component comes first by its ecosystem, its name in lower case and its version, each read by
      character codes. */
  ghost predicate ListedBefore(a: Component, b: Component) {
    if a.ecosystem != b.ecosystem then V.CodeBefore(a.ecosystem, b.ecosystem)
    else if Lower(a.name) != Lower(b.name) then V.CodeBefore(Lower(a.name), Lower(b.name))
    else V.CodeBefore(a.version, b.version)
  }

  predicate SameKey(a: Component, b: Component) {
    a.ecosystem == b.ecosystem && Lower(a.name) == Lower(b.name) && a.version == b.version
  }

  lemma LessByCode(a: Component, b: Component)
    ensures ComponentLess(a, b) <==> ListedBefore(a, b)
  {
    V.StringStrictTotal();
    V.StringsByCode(a.ecosystem, b.ecosystem);
    V.StringsByCode(Lower(a.name), Lower(b.name));
    V.StringsByCode(a.version, b.version);
    hide V.StringLess, V.CodeBefore, Lower;
  }

  lemma ComponentOrder(a: Component, b: Component, c: Component)
    ensures ComponentLess(a, b) && ComponentLess(b, c) ==> ComponentLess(a, c)
    ensures ComponentLess(a, b) || ComponentLess(b, a) || SameKey(a, b)
  {
    V.StringStrictTotal();
    hide V.StringLess, Lower;
  }

  predicate OncePerKey(cs: seq<Component>) { forall i, j | 0 <= i < j < |cs| :: !SameKey(cs[i], cs[j]) }

  predicate Ascending(cs: seq<Component>) { forall i, j | 0 <= i < j < |cs| :: ComponentLess(cs[i], cs[j]) }

  lemma {:induction false} InsertedIsAscending(c: Component, cs: seq<Component>)
    requires Ascending(cs) && forall x | x in cs :: !SameKey(x, c) && !SameKey(c, x)
    ensures Ascending(Inserted(c, cs))
  {
    hide ComponentLess, SameKey;
    if cs == [] {
    } else if ComponentLess(cs[0], c) {
      InsertedIsAscending(c, cs[1..]);
      InsertedIsPermutation(c, cs[1..]);
      forall x | x in Inserted(c, cs[1..]) ensures ComponentLess(cs[0], x) {
        assert x in multiset(cs[1..]) + multiset{c};
      }
    } else {
      ComponentOrder(cs[0], c, c);
      forall x | x in cs ensures ComponentLess(c, x) { ComponentOrder(c, cs[0], x); }
    }
  }

  lemma SameKeyBothWays(a: Component, b: Component)
    ensures SameKey(a, b) ==> SameKey(b, a)
  {
  }

  lemma {:induction false} SortIsAscending(cs: seq<Component>)
    requires OncePerKey(cs)
    ensures Ascending(SortedComponents(cs))
  {
    hide Inserted, SameKey, ComponentLess;
    if cs != [] {
      SortIsAscending(cs[1..]);
      SortIsPermutation(cs[1..]);
      var rest := SortedComponents(cs[1..]);
      forall x | x in rest ensures !SameKey(cs[0], x) && !SameKey(x, cs[0]) {
        assert x in multiset(rest);
        SameKeyBothWays(x, cs[0]);
      }
      assert rest != [] ==> rest[0] in rest;
      InsertedIsAscending(cs[0], rest);
    }
  }

  predicate KnowsLicense(db: LicenseDb, ecosystem: string, name: string) {
    ecosystem in db && name in db[ecosystem]
  }

  /** What a component takes from its dependency; a missing version is listed as `unknown`, a missing
      declaration as one of the version, and the licence is looked up by the name in lower case first. */
  predicate Lists(c: Component, d: Dependency, db: LicenseDb) {
    && c.ecosystem == d.ecosystem && c.name == d.name && c.manifest == d.manifest
    && (d.version != "" ==> c.version == d.version) && (d.version == "" ==> c.version == "unknown")
    && (d.declaredSpec != "" ==> c.declaredSpec == d.declaredSpec)
    && (d.declaredSpec == "" ==> c.declaredSpec == "==" + c.version)
    && c.purl == Purl(d.ecosystem, d.name, c.version)
    && (KnowsLicense(db, d.ecosystem, Lower(d.name)) ==> c.license == db[d.ecosystem][Lower(d.name)])
    && (!KnowsLicense(db, d.ecosystem, Lower(d.name)) ==>
          && (KnowsLicense(db, d.ecosystem, d.name) ==> c.license == db[d.ecosystem][d.name])
          && (!KnowsLicense(db, d.ecosystem, d.name) ==> c.license == "UNKNOWN"))
  }

  lemma ListsExactly(c: Component, d: Dependency, db: LicenseDb)
    ensures Lists(c, d, db) <==> c == ComponentOf(d, db)
  {
    hide Purl, Lower;
  }

  lemma FirstComponentsAreListed(deps: seq<Dependency>, db: LicenseDb, c: Component)
    ensures c in Components(deps, db) <==>
            exists i: nat :: i < |deps| && IsFirst(deps, i) && c == ComponentOf(deps[i], db)
  {
    var kept := Kept(deps, {});
    SortIsPermutation(ComponentsOf(kept, db));
    KeptAreFirsts(deps, {});
    hide SortedComponents, KeyOf, ComponentOf, Kept, IsFirst;
    assert c in Components(deps, db) <==> c in multiset(ComponentsOf(kept, db));
    if c in ComponentsOf(kept, db) {
      var j :| 0 <= j < |kept| && ComponentsOf(kept, db)[j] == c;
      assert kept[j] in kept;
    }
    forall i: nat | i < |deps| && IsFirst(deps, i) && c == ComponentOf(deps[i], db) ensures c in ComponentsOf(kept,
        db) {
      var j :| 0 <= j < |kept| && kept[j] == deps[i];
      assert ComponentsOf(kept, db)[j] == c;
    }
  }

  /** The component list holds the component of every dependency that is the first with its key... */
  lemma FirstOfEachKeyIsListed(deps: seq<Dependency>, db: LicenseDb, c: Component)
    ensures c in Components(deps, db) <==>
            exists i: nat :: i < |deps| && IsFirst(deps, i) && Lists(c, deps[i], db)
  {
    FirstComponentsAreListed(deps, db, c);
    forall d: Dependency ensures Lists(c, d, db) <==> c == ComponentOf(d, db) { ListsExactly(c, d, db); }
    hide Lists, Components, ComponentOf, IsFirst;
  }

  /** No earlier dependency has the same ecosystem, name in lower case and version. */
  predicate IsFirst(deps: seq<Dependency>, i: nat)
    requires i < |deps|
  {
    forall j | 0 <= j < i :: KeyOf(deps[j]) != KeyOf(deps[i])
  }

  lemma {:induction false} KeptAreFirsts(deps: seq<Dependency>, seen: set<Key>)
    ensures forall i: nat | i < |deps| && IsFirst(deps, i) && KeyOf(deps[i]) !in seen :: deps[i] in Kept(deps, seen)
    ensures forall d | d in Kept(deps, seen) ::
              KeyOf(d) !in seen && exists i: nat :: i < |deps| && IsFirst(deps, i) && deps[i] == d
    decreases |deps|
  {
    hide KeyOf;
    if deps != [] {
      var k := KeyOf(deps[0]);
      var rest := deps[1..];
      var seen' := if k in seen then seen else seen + {k};
      KeptAreFirsts(rest, seen');
      assert IsFirst(deps, 0);
      forall i: nat | i < |deps| && IsFirst(deps, i) && KeyOf(deps[i]) !in seen ensures deps[i] in Kept(deps, seen) {
        if i > 0 { FirstInRest(deps, i); }
      }
      forall d | d in Kept(deps, seen)
        ensures KeyOf(d) !in seen && exists i: nat :: i < |deps| && IsFirst(deps, i) && deps[i] == d
      {
        if d in Kept(rest, seen') {
          var i: nat :| i < |rest| && IsFirst(rest, i) && rest[i] == d;
          FirstOfWhole(deps, i + 1, seen');
        }
      }
    }
  }

  lemma FirstInRest(deps: seq<Dependency>, i: nat)
    requires 0 < i < |deps| && IsFirst(deps, i)
    ensures IsFirst(deps[1..], i - 1) && KeyOf(deps[0]) != KeyOf(deps[i])
  {
    hide KeyOf;
  }

  lemma FirstOfWhole(deps: seq<Dependency>, i: nat, seen: set<Key>)
    requires 0 < i < |deps| && IsFirst(deps[1..], i - 1) && KeyOf(deps[i]) !in seen && KeyOf(deps[0]) in seen
    ensures IsFirst(deps, i)
  {
    hide KeyOf;
    forall j | 0 <= j < i ensures KeyOf(deps[j]) != KeyOf(deps[i]) {
      if j > 0 { assert deps[1..][j - 1] == deps[j]; }
    }
  }

  /** ... and is strictly ascending by ecosystem, name in lower case and version. */
  lemma ListIsAscending(deps: seq<Dependency>, db: LicenseDb, i: nat, j: nat)
    requires i < j < |Components(deps, db)|
    ensures ListedBefore(Components(deps, db)[i], Components(deps, db)[j])
  {
    var kept := Kept(deps, {});
    KeptHasDistinctKeys(deps, {});
    DistinctKeysAreOnce(kept, db);
    SortIsAscending(ComponentsOf(kept, db));
    var cs := Components(deps, db);
    LessByCode(cs[i], cs[j]);
    hide ListedBefore, ComponentLess, SortedComponents, Kept, ComponentsOf;
  }

  lemma DistinctKeysAreOnce(kept: seq<Dependency>, db: LicenseDb)
    requires forall i, j | 0 <= i < j < |kept| :: KeyOf(kept[i]) != KeyOf(kept[j])
    ensures OncePerKey(ComponentsOf(kept, db))
  {
    forall i, j | 0 <= i < j < |kept| ensures !SameKey(ComponentOf(kept[i], db), ComponentOf(kept[j], db)) {
      assert KeyOf(kept[i]) != KeyOf(kept[j]);
      hide Lower, VersionOf, LicenseFor, PurlOf;
    }
  }

  lemma ComponentsAppend(kept: seq<Dependency>, d: Dependency, db: LicenseDb)
    ensures ComponentsOf(kept + [d], db) == ComponentsOf(kept, db) + [ComponentOf(d, db)]
  {
    hide ComponentOf;
  }

  lemma KeptStep(deps: seq<Dependency>, k: nat, seen: set<Key>)
    requires k < |deps|
    ensures Kept(deps[k..], seen) ==
            if KeyOf(deps[k]) in seen then Kept(deps[k + 1..], seen)
                else [deps[k]] + Kept(deps[k + 1..], seen + {KeyOf(deps[k])})
  {
    hide KeyOf;
    assert deps[k..][0] == deps[k] && deps[k..][1..] == deps[k + 1..];
  }

  method CollectComponents(deps: seq<Dependency>, db: LicenseDb) returns (components: seq<Component>)
    ensures components == Components(deps, db)
  {
    ghost var kept: seq<Dependency> := [];
    var seen: set<Key> := {};
    components := [];
    assert components == ComponentsOf(kept, db) && deps[0..] == deps;
    hide SortedComponents, ComponentOf, ComponentsOf, KeyOf;
    for k := 0 to |deps|
      invariant Kept(deps, {}) == kept + Kept(deps[k..], seen)
      invariant components == ComponentsOf(kept, db)
    {
      hide Kept;
      KeptStep(deps, k, seen);
      if KeyOf(deps[k]) in seen {
        continue;
      }
      seen := seen + {KeyOf(deps[k])};
      components := components + [ComponentOf(deps[k], db)];
      ComponentsAppend(kept, deps[k], db);
      AppendOne(kept, deps[k], Kept(deps[k + 1..], seen));
      kept := kept + [deps[k]];
    }
    assert deps[|deps|..] == [] && kept + [] == kept;
    components := SortedComponents(components);
  }

  // ----- the document

  datatype LicenseEntry = LicenseEntry(id: Option<string>)

  /** A component object of a document, whose fields may be missing, or something that is no object. */
  datatype CdxComponent =
    | NotAnObject
    | CdxComponent(kind: Option<string>, name: Option<string>, version: Option<string>, purl: Option<string>,
        bomRef: Option<string>,
                   properties: seq<(string, string)>, licenses: Option<seq<LicenseEntry>>)

  datatype DependencyNode = DependencyNode(ref: Option<string>, dependsOn: seq<string>)

  datatype Document = Document(bomFormat: string, specVersion: string, serialNumber: string,
      components: Option<seq<CdxComponent>>,
                               dependencies: seq<DependencyNode>)

  const ROOT := "ironclad-root"

  function LicenseEntries(ids: seq<string>): (r: seq<LicenseEntry>)
    ensures |r| == |ids|
    ensures forall i | 0 <= i < |ids| :: r[i] == LicenseEntry(Some(ids[i]))
  {
    seq(|ids|, i requires 0 <= i < |ids| => LicenseEntry(Some(ids[i])))
  }

  function LicensesOf(license: string): Option<seq<LicenseEntry>> {
    if license == "UNKNOWN" then None
    else
      var e := Spdx.Parse(license);
      if e.operator == Spdx.OrOperator && |e.ids| > 1 then Some(LicenseEntries(e.ids))
          else Some([LicenseEntry(Some(license))])
  }

  function CdxOf(c: Component): CdxComponent {
    CdxComponent(Some("library"), Some(c.name), Some(c.version), Some(c.purl), Some(c.purl),
                 [("ironclad:ecosystem", c.ecosystem), ("ironclad:manifest", c.manifest)]
                 + (if c.license == "UNKNOWN" then [("ironclad:license-status", "UNKNOWN")] else []),
                 LicensesOf(c.license))
  }

  function CdxAll(cs: seq<Component>): (r: seq<CdxComponent>)
    ensures |r| == |cs| && forall i | 0 <= i < |cs| :: r[i] == CdxOf(cs[i])
  {
    seq(|cs|, i requires 0 <= i < |cs| => CdxOf(cs[i]))
  }

  function Purls(cs: seq<Component>): (r: seq<string>)
    ensures |r| == |cs| && forall i | 0 <= i < |cs| :: r[i] == cs[i].purl
  {
    seq(|cs|, i requires 0 <= i < |cs| => cs[i].purl)
  }

  function Leaves(purls: seq<string>): (r: seq<DependencyNode>)
    ensures |r| == |purls| && forall i | 0 <= i < |purls| :: r[i] == DependencyNode(Some(purls[i]), [])
  {
    seq(|purls|, i requires 0 <= i < |purls| => DependencyNode(Some(purls[i]), []))
  }

  function Build(deps: seq<Dependency>, db: LicenseDb, uuid: string, includeDependencies: bool): Document {
    var cs := Components(deps, db);
    Document("CycloneDX", "1.5", "urn:uuid:" + uuid, Some(CdxAll(cs)),
             if includeDependencies then [DependencyNode(Some(ROOT), Purls(cs))] + Leaves(Purls(cs)) else [])
  }

  method BuildSbom(deps: seq<Dependency>, db: LicenseDb, uuid: string,
          includeDependencies: bool) returns (doc: Document)
    ensures doc == Build(deps, db, uuid, includeDependencies)
  {
    hide Components, CdxOf;
    var components := CollectComponents(deps, db);
    var entries: seq<CdxComponent> := [];
    for k := 0 to |components|
      invariant entries == CdxAll(components[..k])
    {
      assert components[..k + 1] == components[..k] + [components[k]];
      entries := entries + [CdxOf(components[k])];
    }
    assert components[..|components|] == components;
    doc := Document("CycloneDX", "1.5", "urn:uuid:" + uuid, Some(entries),
                    if includeDependencies then [DependencyNode(Some(ROOT), Purls(components))]
                        + Leaves(Purls(components)) else []);
  }

  // ----- the validator

  datatype Problem =
    | WrongFormat
    | WrongSpecVersion
    | WrongSerialNumber
    | ComponentsNotAList
    | ComponentNotAnObject(index: nat)
    | MissingField(index: nat, field: string)
    | DuplicateRef(ref: Option<string>)
    | MalformedPurl(index: nat)
    | EmptyLicenses(index: nat)
    | MalformedLicense(index: nat)
    | MissingRef(index: nat)
    | UnknownRef(index: nat, target: string)

  function When(bad: bool, p: Problem): seq<Problem> { if bad then [p] else [] }

  function MissingFields(c: CdxComponent, index: nat): seq<Problem>
    requires c.CdxComponent?
  {
    When(c.kind.None?, MissingField(index, "type")) + When(c.name.None?, MissingField(index, "name"))
    + When(c.version.None?, MissingField(index, "version")) + When(c.purl.None?, MissingField(index, "purl"))
    + When(c.bomRef.None?, MissingField(index, "bom-ref"))
  }

  function LicenseProblems(entries: seq<LicenseEntry>, index: nat): seq<Problem> {
    if entries == [] then []
        else When(entries[0].id.None?, MalformedLicense(index)) + LicenseProblems(entries[1..], index)
  }

  function ComponentProblems(c: CdxComponent, index: nat, refs: set<Option<string>>): seq<Problem>
    requires c.CdxComponent?
  {
    MissingFields(c, index) + When(c.bomRef in refs, DuplicateRef(c.bomRef))
    + When(!StartsWith(if c.purl.Some? then c.purl.value else "", "pkg:"), MalformedPurl(index))
    + (if c.licenses.None? then [] else if c.licenses.value == [] then [EmptyLicenses(index)]
        else LicenseProblems(c.licenses.value, index))
  }

  function RefsOf(cs: seq<CdxComponent>): set<Option<string>> { set c | c in cs && c.CdxComponent? :: c.bomRef }

  /** The problems of the first k components. */
  function ComponentsProblems(cs: seq<CdxComponent>, k: nat): seq<Problem>
    requires k <= |cs|
  {
    if k == 0 then []
    else
      ComponentsProblems(cs, k - 1)
      + (if cs[k - 1].NotAnObject? then [ComponentNotAnObject(k - 1)]
          else ComponentProblems(cs[k - 1], k - 1, RefsOf(cs[..k - 1])))
  }

  function UnknownRefs(refs: seq<string>, index: nat, known: set<Option<string>>): seq<Problem> {
    if refs == [] then []
    else if Some(refs[0]) !in known && refs[0] != ROOT then [UnknownRef(index, refs[0])]
        + UnknownRefs(refs[1..], index, known)
    else UnknownRefs(refs[1..], index, known)
  }

  function DependencyProblems(ds: seq<DependencyNode>, k: nat, known: set<Option<string>>): seq<Problem>
    requires k <= |ds|
  {
    if k == 0 then []
    else
      DependencyProblems(ds, k - 1, known)
      + (if ds[k - 1].ref.None? then [MissingRef(k - 1)] else UnknownRefs(ds[k - 1].dependsOn, k - 1, known))
  }

  function HeaderProblems(doc: Document): seq<Problem> {
    When(doc.bomFormat != "CycloneDX", WrongFormat) + When(doc.specVersion != "1.5", WrongSpecVersion)
    + When(!StartsWith(doc.serialNumber, "urn:uuid:"), WrongSerialNumber)
  }

  function Problems(doc: Document): seq<Problem> {
    if doc.components.None? then HeaderProblems(doc) + [ComponentsNotAList]
    else
      var cs := doc.components.value;
      HeaderProblems(doc) + ComponentsProblems(cs, |cs|) + DependencyProblems(doc.dependencies, |doc.dependencies|,
          RefsOf(cs))
  }

  method ValidateCyclonedx(doc: Document) returns (problems: seq<Problem>)
    ensures problems == Problems(doc)
  {
    hide MissingFields, LicenseProblems, UnknownRefs;
    problems := HeaderProblems(doc);
    hide HeaderProblems;
    if doc.components.None? {
      return problems + [ComponentsNotAList];
    }
    var found, refs := CheckComponents(doc.components.value);
    problems := problems + found;
    var broken := CheckDependencies(doc.dependencies, refs);
    problems := problems + broken;
  }

  method CheckComponents(cs: seq<CdxComponent>) returns (problems: seq<Problem>, refs: set<Option<string>>)
    ensures problems == ComponentsProblems(cs, |cs|) && refs == RefsOf(cs)
  {
    problems, refs := [], {};
    for k := 0 to |cs|
      invariant problems == ComponentsProblems(cs, k)
      invariant refs == RefsOf(cs[..k])
    {
      RefsAppend(cs, k);
      hide RefsOf, ComponentProblems;
      if cs[k].NotAnObject? {
        problems := problems + [ComponentNotAnObject(k)];
      } else {
        var found := CheckComponent(cs[k], k, refs);
        refs := refs + {cs[k].bomRef};
        problems := problems + found;
      }
    }
    assert cs[..|cs|] == cs;
  }

  method CheckComponent(c: CdxComponent, index: nat, refs: set<Option<string>>) returns (problems: seq<Problem>)
    requires c.CdxComponent?
    ensures problems == ComponentProblems(c, index, refs)
  {
    hide MissingFields, LicenseProblems, StartsWith;
    problems := MissingFields(c, index);
    if c.bomRef in refs {
      problems := problems + [DuplicateRef(c.bomRef)];
    }
    var purl := if c.purl.Some? then c.purl.value else "";
    if !StartsWith(purl, "pkg:") {
      problems := problems + [MalformedPurl(index)];
    }
    if c.licenses.Some? {
      if c.licenses.value == [] {
        problems := problems + [EmptyLicenses(index)];
      } else {
        var malformed := CheckLicenses(c.licenses.value, index);
        problems := problems + malformed;
      }
    }
  }

  lemma RefsAppend(cs: seq<CdxComponent>, k: nat)
    requires k < |cs|
    ensures RefsOf(cs[..k + 1]) == RefsOf(cs[..k]) + if cs[k].CdxComponent? then {cs[k].bomRef} else {}
  {
    assert forall c :: c in cs[..k + 1] <==> c in cs[..k] || c == cs[k];
  }

  method CheckLicenses(entries: seq<LicenseEntry>, index: nat) returns (problems: seq<Problem>)
    ensures problems == LicenseProblems(entries, index)
  {
    problems := [];
    for k := 0 to |entries|
      invariant LicenseProblems(entries, index) == problems + LicenseProblems(entries[k..], index)
    {
      assert entries[k..][0] == entries[k] && entries[k..][1..] == entries[k + 1..];
      if entries[k].id.None? {
        problems := problems + [MalformedLicense(index)];
      }
    }
  }

  method CheckDependencies(ds: seq<DependencyNode>, refs: set<Option<string>>) returns (problems: seq<Problem>)
    ensures problems == DependencyProblems(ds, |ds|, refs)
  {
    hide UnknownRefs;
    problems := [];
    for k := 0 to |ds|
      invariant problems == DependencyProblems(ds, k, refs)
    {
      if ds[k].ref.None? {
        problems := problems + [MissingRef(k)];
        continue;
      }
      var unknown := CheckReferences(ds[k].dependsOn, k, refs);
      problems := problems + unknown;
    }
  }

  method CheckReferences(wanted: seq<string>, index: nat, refs: set<Option<string>>) returns (unknown: seq<Problem>)
    ensures unknown == UnknownRefs(wanted, index, refs)
  {
    unknown := [];
    for k := 0 to |wanted|
      invariant UnknownRefs(wanted, index, refs) == unknown + UnknownRefs(wanted[k..], index, refs)
    {
      assert wanted[k..][0] == wanted[k] && wanted[k..][1..] == wanted[k + 1..];
      AppendOne(unknown, UnknownRef(index, wanted[k]), UnknownRefs(wanted[k + 1..], index, refs));
      if Some(wanted[k]) !in refs && wanted[k] != ROOT {
        unknown := unknown + [UnknownRef(index, wanted[k])];
      }
    }
  }

  // ----- the generator meets the validator

  /** A component without a problem of its own. */
  lemma CleanComponent(c: Component, index: nat, refs: set<Option<string>>)
    requires StartsWith(c.purl, "pkg:")
    ensures ComponentProblems(CdxOf(c), index, refs) == When(Some(c.purl) in refs, DuplicateRef(Some(c.purl)))
  {
    CleanLicenses(c.license, index);
    hide LicensesOf, LicenseProblems, StartsWith;
    assert MissingFields(CdxOf(c), index) == [];
  }

  lemma CleanLicenses(license: string, index: nat)
    ensures LicensesOf(license).Some? ==>
        LicensesOf(license).value != [] && LicenseProblems(LicensesOf(license).value, index) == []
  {
    hide Spdx.Parse;
    var e := Spdx.Parse(license);
    WholeLicenses(LicenseEntries(e.ids), index);
    WholeLicenses([LicenseEntry(Some(license))], index);
  }

  lemma {:induction false} WholeLicenses(entries: seq<LicenseEntry>, index: nat)
    requires forall e | e in entries :: e.id.Some?
    ensures LicenseProblems(entries, index) == []
  {
    if entries != [] {
      assert entries[0] in entries && forall e | e in entries[1..] :: e in entries;
      WholeLicenses(entries[1..], index);
    }
  }

  predicate Distinct(purls: seq<string>) { forall i, j | 0 <= i < j < |purls| :: purls[i] != purls[j] }

  predicate AllPkg(cs: seq<Component>) { forall c | c in cs :: StartsWith(c.purl, "pkg:") }

  lemma RefsOfCdx(cs: seq<Component>, k: nat)
    requires k <= |cs|
    ensures forall p: string :: Some(p) in RefsOf(CdxAll(cs)[..k]) <==> p in Purls(cs)[..k]
  {
    hide LicensesOf;
    forall p: string ensures Some(p) in RefsOf(CdxAll(cs)[..k]) <==> p in Purls(cs)[..k] {
      if Some(p) in RefsOf(CdxAll(cs)[..k]) {
        var c :| c in CdxAll(cs)[..k] && c.CdxComponent? && c.bomRef == Some(p);
        var i :| 0 <= i < k && CdxAll(cs)[i] == c;
        assert Purls(cs)[..k][i] == p;
      }
      if p in Purls(cs)[..k] {
        var i :| 0 <= i < k && Purls(cs)[i] == p;
        assert CdxAll(cs)[..k][i] == CdxOf(cs[i]);
      }
    }
  }

  lemma {:induction false} CleanComponents(cs: seq<Component>, k: nat)
    requires AllPkg(cs) && k <= |cs|
    ensures ComponentsProblems(CdxAll(cs), k) == [] <==> Distinct(Purls(cs)[..k])
  {
    hide CdxOf, RefsOf, ComponentProblems, StartsWith;
    if k > 0 {
      CleanComponents(cs, k - 1);
      CleanComponent(cs[k - 1], k - 1, RefsOf(CdxAll(cs)[..k - 1]));
      RefsOfCdx(cs, k - 1);
      assert CdxAll(cs)[k - 1].CdxComponent? by { CdxIsObject(cs[k - 1]); }
      DistinctAppend(Purls(cs), k - 1);
    }
  }

  lemma CdxIsObject(c: Component)
    ensures CdxOf(c).CdxComponent?
  {
  }

  lemma DistinctAppend(purls: seq<string>, k: nat)
    requires k < |purls|
    ensures Distinct(purls[..k + 1]) <==> Distinct(purls[..k]) && purls[k] !in purls[..k]
  {
  }

  lemma {:induction false} KnownRefs(refs: seq<string>, index: nat, known: set<Option<string>>)
    requires forall r | r in refs :: Some(r) in known
    ensures UnknownRefs(refs, index, known) == []
  {
    if refs != [] {
      assert refs[0] in refs && forall r | r in refs[1..] :: r in refs;
      KnownRefs(refs[1..], index, known);
    }
  }

  predicate RefersToKnown(d: DependencyNode, known: set<Option<string>>) {
    d.ref.Some? && forall r | r in d.dependsOn :: Some(r) in known
  }

  lemma CleanNode(d: DependencyNode, index: nat, known: set<Option<string>>)
    requires RefersToKnown(d, known)
    ensures d.ref.Some? && UnknownRefs(d.dependsOn, index, known) == []
  {
    KnownRefs(d.dependsOn, index, known);
  }

  lemma {:induction false} CleanDependencies(ds: seq<DependencyNode>, k: nat, known: set<Option<string>>)
    requires k <= |ds| && forall i | 0 <= i < k :: RefersToKnown(ds[i], known)
    ensures DependencyProblems(ds, k, known) == []
  {
    hide UnknownRefs, RefersToKnown;
    if k > 0 {
      CleanDependencies(ds, k - 1, known);
      CleanNode(ds[k - 1], k - 1, known);
    }
  }

  lemma RootRefersToKnown(cs: seq<Component>)
    ensures RefersToKnown(DependencyNode(Some(ROOT), Purls(cs)), RefsOf(CdxAll(cs)))
  {
    RefsOfCdx(cs, |cs|);
    assert CdxAll(cs)[..|cs|] == CdxAll(cs) && Purls(cs)[..|cs|] == Purls(cs);
    hide RefsOf, CdxAll;
  }

  lemma ReferencesAreClosed(cs: seq<Component>)
    ensures var ds := [DependencyNode(Some(ROOT), Purls(cs))] + Leaves(Purls(cs));
            DependencyProblems(ds, |ds|, RefsOf(CdxAll(cs))) == []
  {
    var known := RefsOf(CdxAll(cs));
    RootRefersToKnown(cs);
    LeavesReferToKnown(Purls(cs), known);
    hide RefsOf, DependencyProblems, CdxAll, Leaves, RefersToKnown;
    var ds := [DependencyNode(Some(ROOT), Purls(cs))] + Leaves(Purls(cs));
    assert ds[0] == DependencyNode(Some(ROOT), Purls(cs)) &&
        forall i | 0 < i < |ds| :: ds[i] == Leaves(Purls(cs))[i - 1];
    CleanDependencies(ds, |ds|, known);
  }

  lemma LeavesReferToKnown(purls: seq<string>, known: set<Option<string>>)
    ensures forall i | 0 <= i < |purls| :: RefersToKnown(Leaves(purls)[i], known)
  {
  }

  /** The validator's only possible complaint about a built document is a repeated reference. */
  lemma BuiltIsValidWhenDistinct(deps: seq<Dependency>, db: LicenseDb, uuid: string, includeDependencies: bool)
    ensures Problems(Build(deps, db, uuid, includeDependencies)) == [] <==> Distinct(Purls(Components(deps, db)))
  {
    var cs := Components(deps, db);
    ComponentsArePkg(deps, db);
    hide Components, ComponentsProblems, DependencyProblems, RefsOf;
    CleanComponents(cs, |cs|);
    assert Purls(cs)[..|cs|] == Purls(cs);
    ReferencesAreClosed(cs);
    var doc := Build(deps, db, uuid, includeDependencies);
    assert HeaderProblems(doc) == [];
    NoDependencies(RefsOf(CdxAll(cs)));
  }

  lemma NoDependencies(known: set<Option<string>>)
    ensures DependencyProblems([], 0, known) == []
  {
  }

  lemma ComponentsArePkg(deps: seq<Dependency>, db: LicenseDb)
    ensures AllPkg(Components(deps, db))
    ensures multiset(Components(deps, db)) == multiset(ComponentsOf(Kept(deps, {}), db))
  {
    var kept := Kept(deps, {});
    var unsorted := ComponentsOf(kept, db);
    SortIsPermutation(unsorted);
    hide Kept, SortedComponents, Purl;
    forall c | c in Components(deps, db) ensures StartsWith(c.purl, "pkg:") {
      assert c in multiset(unsorted);
      var i :| 0 <= i < |unsorted| && unsorted[i] == c;
      PurlShape(kept[i].ecosystem, kept[i].name, VersionOf(kept[i]));
    }
  }

  /** Two kept dependencies that print the same package URL have the same key. */
  predicate UrlsTellApart(kept: seq<Dependency>) {
    forall d, e | d in kept && e in kept && PurlOf(d) == PurlOf(e) :: KeyOf(d) == KeyOf(e)
  }

  lemma {:induction false} DistinctIsMultiplicity(xs: seq<string>)
    ensures Distinct(xs) <==> forall x | x in xs :: multiset(xs)[x] == 1
  {
    if xs != [] {
      var x, rest := xs[0], xs[1..];
      DistinctIsMultiplicity(rest);
      assert xs == [x] + rest;
      assert multiset(xs) == multiset{x} + multiset(rest);
      if x !in rest && Distinct(rest) {
        assert forall y | y in xs :: multiset(xs)[y] == 1;
      } else if x in rest {
        assert multiset(xs)[x] >= 2 && x in xs;
        var j :| 0 <= j < |rest| && rest[j] == x;
        assert xs[0] == xs[j + 1];
      } else {
        var y :| y in rest && multiset(rest)[y] != 1;
        assert y in xs && multiset(xs)[y] == multiset(rest)[y];
        var i, j :| 0 <= i < j < |rest| && rest[i] == rest[j];
        assert xs[i + 1] == xs[j + 1];
      }
    }
  }

  lemma {:induction false} PurlsPermute(a: seq<Component>)
    ensures multiset(Purls(SortedComponents(a))) == multiset(Purls(a))
  {
    hide Inserted;
    if a != [] {
      PurlsPermute(a[1..]);
      PurlsInserted(a[0], SortedComponents(a[1..]));
      PurlsCons(a[0], a[1..]);
      assert [a[0]] + a[1..] == a;
    }
  }

  lemma {:induction false} PurlsInserted(c: Component, cs: seq<Component>)
    ensures multiset(Purls(Inserted(c, cs))) == multiset(Purls(cs)) + multiset{c.purl}
  {
    hide ComponentLess;
    if cs != [] && ComponentLess(cs[0], c) {
      PurlsInserted(c, cs[1..]);
      PurlsCons(cs[0], cs[1..]);
      PurlsCons(cs[0], Inserted(c, cs[1..]));
      assert [cs[0]] + cs[1..] == cs;
    } else {
      PurlsCons(c, cs);
    }
  }

  lemma PurlsCons(c: Component, cs: seq<Component>)
    ensures Purls([c] + cs) == [c.purl] + Purls(cs)
    ensures multiset(Purls([c] + cs)) == multiset{c.purl} + multiset(Purls(cs))
  {
    assert Purls([c] + cs) == [c.purl] + Purls(cs);
  }

  lemma SameMultiplicities(a: seq<string>, b: seq<string>)
    requires multiset(a) == multiset(b)
    ensures Distinct(a) <==> Distinct(b)
  {
    DistinctIsMultiplicity(a);
    DistinctIsMultiplicity(b);
    hide Distinct;
    assert forall x :: x in a <==> x in multiset(a);
    assert forall x :: x in b <==> x in multiset(b);
  }

  /** The generator meets the validator exactly when the package URLs tell the kept dependencies apart:
      a reference is repeated when, and only when, two dependencies with different keys print the same. */
  lemma BuiltIsValidExactlyWhen(deps: seq<Dependency>, db: LicenseDb, uuid: string, includeDependencies: bool)
    ensures Problems(Build(deps, db, uuid, includeDependencies)) == [] <==> UrlsTellApart(Kept(deps, {}))
  {
    var kept := Kept(deps, {});
    var unsorted := ComponentsOf(kept, db);
    BuiltIsValidWhenDistinct(deps, db, uuid, includeDependencies);
    PurlsPermute(unsorted);
    KeptHasDistinctKeys(deps, {});
    hide Problems, Build, Kept, SortedComponents, KeyOf, PurlOf;
    SameMultiplicities(Purls(unsorted), Purls(Components(deps, db)));
    DistinctKept(kept, db);
  }

  lemma DistinctKept(kept: seq<Dependency>, db: LicenseDb)
    requires forall i, j | 0 <= i < j < |kept| :: KeyOf(kept[i]) != KeyOf(kept[j])
    ensures Distinct(Purls(ComponentsOf(kept, db))) <==> UrlsTellApart(kept)
  {
    hide KeyOf, PurlOf, ComponentOf;
    var purls := Purls(ComponentsOf(kept, db));
    assert forall i | 0 <= i < |kept| :: purls[i] == PurlOf(kept[i]) && kept[i] in kept;
    if Distinct(purls) {
      forall d, e | d in kept && e in kept && PurlOf(d) == PurlOf(e) ensures KeyOf(d) == KeyOf(e) {
        var i :| 0 <= i < |kept| && kept[i] == d;
        var j :| 0 <= j < |kept| && kept[j] == e;
        assert purls[i] == purls[j];
      }
    }
  }

  /** Over the eight ecosystems, with versions that hold no @, every dependency list builds a document
      in which the validator finds nothing. */
  lemma GeneratorMeetsValidator(deps: seq<Dependency>, db: LicenseDb, uuid: string, includeDependencies: bool)
    requires forall d | d in deps :: KnownEcosystem(d.ecosystem) && NoAt(d.version)
    ensures Problems(Build(deps, db, uuid, includeDependencies)) == []
  {
    hide Problems, Build, Kept, UrlsTellApart;
    BuiltIsValidExactlyWhen(deps, db, uuid, includeDependencies);
    KeptHasDistinctKeys(deps, {});
    KnownUrlsTellApart(Kept(deps, {}));
  }

  lemma KnownUrlsTellApart(kept: seq<Dependency>)
    requires forall d | d in kept :: KnownEcosystem(d.ecosystem) && NoAt(d.version)
    ensures UrlsTellApart(kept)
  {
    hide KnownEcosystem, Purl;
    forall d, e | d in kept && e in kept && PurlOf(d) == PurlOf(e) ensures KeyOf(d) == KeyOf(e) {
      PurlIsInjective(d.ecosystem, d.name, VersionOf(d), e.ecosystem, e.name, VersionOf(e));
    }
  }

  /** Two dependencies with different keys and the same package URL are refused. */
  lemma CollisionIsRefused(a: Dependency, b: Dependency, db: LicenseDb, uuid: string, includeDependencies: bool)
    requires KeyOf(a) != KeyOf(b) && PurlOf(a) == PurlOf(b)
    ensures Problems(Build([a, b], db, uuid, includeDependencies)) != []
  {
    hide Problems, Build, KeyOf, PurlOf, Kept;
    TwoKept(a, b);
    BuiltIsValidExactlyWhen([a, b], db, uuid, includeDependencies);
    assert a in [a, b] && b in [a, b];
  }

  lemma TwoKept(a: Dependency, b: Dependency)
    requires KeyOf(a) != KeyOf(b)
    ensures Kept([a, b], {}) == [a, b]
  {
    hide KeyOf;
    assert [a, b][1..] == [b] && [b][1..] == [];
    assert Kept([b], {KeyOf(a)}) == [b];
    assert {} + {KeyOf(a)} == {KeyOf(a)};
  }

  /** Outside those bounds the document is refused: two ecosystems without a type of their own share
      one, and an @ in a version can be read as part of the name. */
  lemma UnknownEcosystemsCollide(db: LicenseDb, uuid: string, name: string, version: string)
    ensures Problems(Build([Dependency("swift", name, version, "", ""), Dependency("dart", name, version, "", "")], db,
        uuid, true)) != []
  {
    hide Problems, Build, Kept;
    var a := Dependency("swift", name, version, "", "");
    var b := Dependency("dart", name, version, "", "");
    PurlShape("swift", name, VersionOf(a));
    PurlShape("dart", name, VersionOf(b));
    assert PurlType("swift") == "generic" && PurlType("dart") == "generic";
    hide Purl, PurlType;
    assert KeyOf(a).ecosystem == "swift" && KeyOf(b).ecosystem == "dart" && "swift" != "dart";
    CollisionIsRefused(a, b, db, uuid, true);
  }

  lemma AtMoves(start: string, name: string, front: string, back: string)
    ensures start + name + "@" + (front + "@" + back) == start + (name + "@" + front) + "@" + back
  {
    var middle := name + "@" + front;
    Concat4(start, name, "@", front);
    Concat4(start + name + "@", front, "@", back);
  }

  lemma AtCollides(db: LicenseDb, uuid: string, ecosystem: string, name: string, front: string, back: string)
    requires front != "" && back != ""
    ensures Problems(Build([Dependency(ecosystem, name, front + "@" + back, "", ""),
        Dependency(ecosystem, name + "@" + front, back, "", "")],
                           db, uuid, true)) != []
  {
    hide Problems, Build, Kept;
    var a := Dependency(ecosystem, name, front + "@" + back, "", "");
    var b := Dependency(ecosystem, name + "@" + front, back, "", "");
    assert VersionOf(a) == front + "@" + back && VersionOf(b) == back && |VersionOf(a)| > |VersionOf(b)|;
    assert KeyOf(a) != KeyOf(b);
    PurlShape(ecosystem, name, VersionOf(a));
    PurlShape(ecosystem, name + "@" + front, VersionOf(b));
    AtMoves("pkg:" + PurlType(ecosystem) + "/", name, front, back);
    hide Purl, PurlType, KeyOf;
    CollisionIsRefused(a, b, db, uuid, true);
  }
}
