/** What the SBOM document says of its components, and exactly which documents the validator accepts. */
module SbomDocuments {
  import opened Sequences
  import opened Strings
  import opened Sbom
  import Spdx

  // ----- the documents the validator accepts

  predicate WellFormed(c: CdxComponent) {
    && c.CdxComponent?
    && c.kind.Some? && c.name.Some? && c.version.Some? && c.purl.Some? && c.bomRef.Some?
    && "pkg:" <= c.purl.value
    && (c.licenses.Some? ==> c.licenses.value != [] && forall e | e in c.licenses.value :: e.id.Some?)
  }

  /** The reference is that of a component, or of the root. */
  predicate Refers(target: string, cs: seq<CdxComponent>) {
    target == "ironclad-root" || exists c | c in cs :: c.CdxComponent? && c.bomRef == Some(target)
  }

  predicate DistinctRefs(cs: seq<CdxComponent>) {
    forall i, j | 0 <= i < j < |cs| && cs[i].CdxComponent? && cs[j].CdxComponent? :: cs[i].bomRef != cs[j].bomRef
  }

  predicate GoodNode(d: DependencyNode, cs: seq<CdxComponent>) {
    d.ref.Some? && forall t | t in d.dependsOn :: Refers(t, cs)
  }

  lemma {:induction false} LicensesAreGood(entries: seq<LicenseEntry>, index: nat)
    ensures LicenseProblems(entries, index) == [] <==> forall e | e in entries :: e.id.Some?
  {
    if entries != [] {
      LicensesAreGood(entries[1..], index);
      assert entries == [entries[0]] + entries[1..];
    }
  }

  lemma ComponentIsGood(c: CdxComponent, index: nat, refs: set<Option<string>>)
    requires c.CdxComponent?
    ensures ComponentProblems(c, index, refs) == [] <==> WellFormed(c) && c.bomRef !in refs
  {
    if c.licenses.Some? { LicensesAreGood(c.licenses.value, index); }
    hide LicenseProblems;
    assert StartsWith("", "pkg:") == false;
  }

  predicate GoodUpTo(cs: seq<CdxComponent>, k: nat)
    requires k <= |cs|
  {
    (forall i | 0 <= i < k :: WellFormed(cs[i])) && DistinctRefs(cs[..k])
  }

  lemma ProblemsStep(cs: seq<CdxComponent>, k: nat)
    requires 0 < k <= |cs|
    ensures ComponentsProblems(cs, k) == [] <==>
            && ComponentsProblems(cs, k - 1) == [] && cs[k - 1].CdxComponent?
            && ComponentProblems(cs[k - 1], k - 1, RefsOf(cs[..k - 1])) == []
  {
    hide ComponentProblems, RefsOf;
  }

  lemma NoComponents(cs: seq<CdxComponent>)
    ensures ComponentsProblems(cs, 0) == [] && GoodUpTo(cs, 0)
  {
  }

  lemma {:induction false} ComponentsAreGood(cs: seq<CdxComponent>, k: nat)
    requires k <= |cs|
    ensures ComponentsProblems(cs, k) == [] <==> GoodUpTo(cs, k)
  {
    hide *;
    if k == 0 {
      NoComponents(cs);
    } else {
      ComponentsAreGood(cs, k - 1);
      var c := cs[k - 1];
      ProblemsStep(cs, k);
      OneMore(cs, k);
      WellFormedIsObject(c);
      if c.CdxComponent? { ComponentIsGood(c, k - 1, RefsOf(cs[..k - 1])); }
    }
  }

  lemma OneMore(cs: seq<CdxComponent>, k: nat)
    requires 0 < k <= |cs|
    ensures GoodUpTo(cs, k) <==>
            GoodUpTo(cs, k - 1) && WellFormed(cs[k - 1]) && cs[k - 1].bomRef !in RefsOf(cs[..k - 1])
  {
    var front, c := cs[..k - 1], cs[k - 1];
    assert cs[..k] == front + [c];
    WellFormedIsObject(c);
    hide WellFormed;
    if GoodUpTo(cs, k - 1) && WellFormed(c) {
      if c.bomRef in RefsOf(front) {
        var x :| x in front && x.CdxComponent? && x.bomRef == c.bomRef;
        var i :| 0 <= i < |front| && front[i] == x;
        assert cs[..k][i] == x && cs[..k][k - 1] == c;
      }
      forall i | 0 <= i < k - 1 && cs[i].CdxComponent? && c.bomRef !in RefsOf(front) ensures cs[i].bomRef != c.bomRef {
        assert front[i] == cs[i] && cs[i] in front;
      }
    }
    if GoodUpTo(cs, k) {
      forall i, j | 0 <= i < j < |front| && front[i].CdxComponent? && front[j].CdxComponent?
        ensures front[i].bomRef != front[j].bomRef
      {
        assert cs[..k][i] == front[i] && cs[..k][j] == front[j];
      }
      forall i | 0 <= i < k - 1 && cs[i].CdxComponent? ensures cs[i].bomRef != c.bomRef {
        assert cs[..k][i] == cs[i] && cs[..k][k - 1] == c;
      }
    }
  }

  lemma WellFormedIsObject(c: CdxComponent)
    ensures WellFormed(c) ==> c.CdxComponent?
  {
  }

  lemma {:induction false} ReferencesAreGood(refs: seq<string>, index: nat, cs: seq<CdxComponent>)
    ensures UnknownRefs(refs, index, RefsOf(cs)) == [] <==> forall t | t in refs :: Refers(t, cs)
  {
    if refs != [] {
      ReferencesAreGood(refs[1..], index, cs);
      assert refs == [refs[0]] + refs[1..];
      assert Refers(refs[0], cs) <==> refs[0] == ROOT || Some(refs[0]) in RefsOf(cs);
    }
  }

  lemma {:induction false} NodesAreGood(ds: seq<DependencyNode>, k: nat, cs: seq<CdxComponent>)
    requires k <= |ds|
    ensures DependencyProblems(ds, k, RefsOf(cs)) == [] <==> forall i | 0 <= i < k :: GoodNode(ds[i], cs)
  {
    hide RefsOf, UnknownRefs, Refers;
    if k > 0 {
      NodesAreGood(ds, k - 1, cs);
      ReferencesAreGood(ds[k - 1].dependsOn, k - 1, cs);
    }
  }

  /** A document has no problems exactly when its header is right, its components are objects with the
      five fields, a package URL, distinct references and licences that name one, and its dependencies
      refer to components or the root. */
  lemma AcceptedExactlyWhen(doc: Document)
    ensures Problems(doc) == [] <==>
            && doc.bomFormat == "CycloneDX" && doc.specVersion == "1.5" && "urn:uuid:" <= doc.serialNumber
            && doc.components.Some?
            && (forall c | c in doc.components.value :: WellFormed(c)) && DistinctRefs(doc.components.value)
            && (forall d | d in doc.dependencies :: GoodNode(d, doc.components.value))
  {
    if doc.components.Some? {
      var cs := doc.components.value;
      ComponentsAreGood(cs, |cs|);
      NodesAreGood(doc.dependencies, |doc.dependencies|, cs);
      assert cs[..|cs|] == cs;
    }
    hide ComponentsProblems, DependencyProblems, WellFormed, GoodNode, DistinctRefs, RefsOf;
  }

  // ----- what a document says

  /** The entry of a component: its name, version and package URL, which is its reference too, its
      ecosystem and manifest as properties, and a mark when its licence is unknown. */
  predicate Describes(entry: CdxComponent, c: Component) {
    && entry.CdxComponent?
    && entry.kind == Some("library") && entry.name == Some(c.name) && entry.version == Some(c.version)
    && entry.purl == Some(c.purl) && entry.bomRef == Some(c.purl)
    && ("ironclad:ecosystem", c.ecosystem) in entry.properties
    && ("ironclad:manifest", c.manifest) in entry.properties
    && (("ironclad:license-status", "UNKNOWN") in entry.properties <==> c.license == "UNKNOWN")
    && (entry.licenses == None <==> c.license == "UNKNOWN")
  }

  lemma EntryDescribes(c: Component)
    ensures Describes(CdxOf(c), c)
  {
    assert |"ironclad:license-status"| == 23 && |"ironclad:ecosystem"| == 18 && |"ironclad:manifest"| == 17;
    hide Spdx.Parse, LicenseEntries;
  }

  /** The document lists the components in their order; asked for dependencies, it says that the root
      needs each of them and that they need nothing, and otherwise it says nothing of them. */
  lemma DocumentOfComponents(deps: seq<Dependency>, db: LicenseDb, uuid: string, includeDependencies: bool)
    ensures var cs, doc := Components(deps, db), Build(deps, db, uuid, includeDependencies);
            && doc.components.Some? && |doc.components.value| == |cs|
            && (forall i | 0 <= i < |cs| :: Describes(doc.components.value[i], cs[i]))
            && (!includeDependencies ==> doc.dependencies == [])
            && (includeDependencies ==>
                  && |doc.dependencies| == |cs| + 1
                  && doc.dependencies[0].ref == Some("ironclad-root") && |doc.dependencies[0].dependsOn| == |cs|
                  && (forall i | 0 <= i < |cs| :: doc.dependencies[0].dependsOn[i] == cs[i].purl)
                  && (forall i | 0 <= i < |cs| :: doc.dependencies[i + 1] == DependencyNode(Some(cs[i].purl), [])))
  {
    hide Components, CdxOf, Describes;
    var cs := Components(deps, db);
    forall i | 0 <= i < |cs| ensures Describes(CdxAll(cs)[i], cs[i]) { EntryDescribes(cs[i]); }
  }

  /** A choice of licences is listed licence by licence, any other expression as one text. */
  lemma ChoiceIsListed(e: Spdx.License)
    requires Spdx.ValidTree(e) && !Spdx.ReservedTree(e)
    ensures LicensesOf(Spdx.Print(e)) ==
            Some(if Spdx.UsesOr(e) && !Spdx.UsesAnd(e) then LicenseEntries(Spdx.TreeIds(e))
                 else [LicenseEntry(Some(Spdx.Print(e)))])
  {
    Spdx.ParsedTree(e);
    Spdx.ChoiceHasTwo(e);
    Spdx.PrintsNoUnknown(e);
    hide Spdx.Parse, Spdx.Print, Spdx.TreeIds, Spdx.ValidTree, LicenseEntries;
  }
}
