/**
 The SPDX document: the generator, the validator, and why the one accepts what
 the other builds.

 A document is given by the fields that the validator looks at.  A field is
 `None` where the JSON value is absent or of the wrong type.
 */
module SbomDocument {
  import opened Wrappers
  import opened BunResolver
  import opened BunGraph
  import opened Texts
  import opened FileTable
  import Decimal

  // ----- Inputs -----

  datatype Artifact = Artifact(name: string, size: nat, sha256: string)

  datatype LockedPackage = LockedPackage(name: string, version: string)

  /** Everything a document is bound to; the hashes are given. */
  datatype Inputs = Inputs(
    artifacts: seq<Artifact>,
    artifactSet: string,
    locked: seq<LockedPackage>,
    frontend: Graph,
    head: string,
    cargoLock: string,
    bunLock: string)

  predicate IsHex(c: char) { '0' <= c <= '9' || 'a' <= c <= 'f' || 'A' <= c <= 'F' }

  predicate IsSha256(s: string) { |s| == 64 && forall i :: 0 <= i < |s| ==> IsHex(s[i]) }

  /** A directory listing: distinct names, digests in lower-case hexadecimal. */
  predicate FromDirectory(artifacts: seq<Artifact>)
  {
    && NoRepeats(ArtifactRows(artifacts))
    && (forall i :: 0 <= i < |artifacts| ==> IsSha256(artifacts[i].sha256) && Lower(artifacts[i].sha256) == artifacts[i].sha256)
  }

  // ----- Documents -----

  datatype PackageEntry = PackageEntry(
    id: Option<string>,
    name: Option<string>,
    version: Option<string>,
    locator: Option<string>,
    comment: Option<string>)

  datatype Relationship = Relationship(element: string, kind: string, related: string) | OtherJson

  datatype Checksum = Checksum(algorithm: Option<string>, value: Option<string>)

  datatype FileEntry = FileEntry(name: Option<string>, checksums: Option<seq<Checksum>>)

  datatype Document = Document(
    spdxVersion: Option<string>,
    dataLicense: Option<string>,
    id: Option<string>,
    comment: Option<string>,
    namespace: Option<string>,
    packages: Option<seq<PackageEntry>>,
    relationships: Option<seq<Relationship>>,
    files: Option<seq<FileEntry>>)

  const SPDX_VERSION := "SPDX-2.3"
  const DATA_LICENSE := "CC0-1.0"
  const DOCUMENT_ID := "SPDXRef-DOCUMENT"
  const PRODUCT_ID := "SPDXRef-Package-SkyAutoPlayer"
  const ARTIFACT_SET_MARKER := "artifact-set-sha256:"
  const CARGO_MARKER := "cargo-lockfile-sha256:"
  const BUN_MARKER := "bun-lockfile-sha256:"
  const KEY_MARKER := "bun-lock-key:"
  const INTEGRITY_MARKER := "integrity:"
  const SHA256 := "SHA256"
  const CONTAINS := "CONTAINS"
  const DEPENDS_ON := "DEPENDS_ON"

  function ArtifactId(index: nat): string { "SPDXRef-Artifact-" + Decimal.Text(index + 1) }

  function CargoId(index: nat): string { "SPDXRef-Package-Cargo-" + Decimal.Text(index + 1) }

  function FrontendId(index: nat): string { "SPDXRef-Package-Npm-" + Decimal.Text(index + 1) }

  function Escaped(name: string): string
  {
    if name == [] then []
    else EscapedChar(name[0]) + Escaped(name[1..])
  }

  function EscapedChar(c: char): string { if c == '@' then "%40" else if c == '/' then "%2F" else [c] }

  function NpmPurl(p: Package): string { "pkg:npm/" + Escaped(p.name) + "@" + p.version }

  // ----- Relationships -----

  function FileLinks(n: nat): (r: seq<Relationship>)
    ensures |r| == n
  {
    if n == 0 then [] else FileLinks(n - 1) + [Relationship(PRODUCT_ID, CONTAINS, ArtifactId(n - 1))]
  }

  function CargoLinks(n: nat): (r: seq<Relationship>)
    ensures |r| == n
  {
    if n == 0 then [] else CargoLinks(n - 1) + [Relationship(PRODUCT_ID, DEPENDS_ON, CargoId(n - 1))]
  }

  /** The links to the first `n` roots; none if a lookup fails. */
  function RootLinks(g: Graph, n: nat): Option<seq<Relationship>>
    requires n <= |g.rootPackages|
  {
    if n == 0 then Some([])
    else
      match (RootLinks(g, n - 1), PackageIndex(g, g.rootPackages[n - 1]))
      case (Some(links), Some(i)) => Some(links + [Relationship(PRODUCT_ID, DEPENDS_ON, FrontendId(i))])
      case _ => None
  }

  function EdgeLinks(g: Graph, n: nat): Option<seq<Relationship>>
    requires n <= |g.edges|
  {
    if n == 0 then Some([])
    else
      match (EdgeLinks(g, n - 1), PackageIndex(g, g.edges[n - 1].0), PackageIndex(g, g.edges[n - 1].1))
      case (Some(links), Some(i), Some(j)) => Some(links + [Relationship(FrontendId(i), DEPENDS_ON, FrontendId(j))])
      case _ => None
  }

  /** All links in document order: files, Cargo packages, roots, edges. */
  function Links(x: Inputs): Option<seq<Relationship>>
  {
    match (RootLinks(x.frontend, |x.frontend.rootPackages|), EdgeLinks(x.frontend, |x.frontend.edges|))
    case (Some(roots), Some(edges)) => Some(FileLinks(|x.artifacts|) + CargoLinks(|x.locked|) + roots + edges)
    case _ => None
  }

  lemma {:induction false} RootLinksFail(g: Graph, m: nat, n: nat)
    requires m <= n <= |g.rootPackages| && RootLinks(g, m).None?
    ensures RootLinks(g, n).None?
    decreases n - m
  {
    if m < n { RootLinksFail(g, m, n - 1); }
  }

  lemma {:induction false} EdgeLinksFail(g: Graph, m: nat, n: nat)
    requires m <= n <= |g.edges| && EdgeLinks(g, m).None?
    ensures EdgeLinks(g, n).None?
    decreases n - m
  {
    if m < n { EdgeLinksFail(g, m, n - 1); }
  }

  method PushRoots(g: Graph, start: seq<Relationship>) returns (r: Option<seq<Relationship>>)
    ensures r == match RootLinks(g, |g.rootPackages|)
                 case Some(roots) => Some(start + roots)
                 case None => None
  {
    var links := start;
    for n := 0 to |g.rootPackages|
      invariant RootLinks(g, n).Some? && links == start + RootLinks(g, n).value
    {
      var index := PackageIndex(g, g.rootPackages[n]);
      if index.None? {
        RootLinksFail(g, n + 1, |g.rootPackages|);
        return None;
      }
      links := links + [Relationship(PRODUCT_ID, DEPENDS_ON, FrontendId(index.value))];
    }
    r := Some(links);
  }

  method PushEdges(g: Graph, start: seq<Relationship>) returns (r: Option<seq<Relationship>>)
    ensures r == match EdgeLinks(g, |g.edges|)
                 case Some(edges) => Some(start + edges)
                 case None => None
  {
    var links := start;
    for n := 0 to |g.edges|
      invariant EdgeLinks(g, n).Some? && links == start + EdgeLinks(g, n).value
    {
      var from, to := PackageIndex(g, g.edges[n].0), PackageIndex(g, g.edges[n].1);
      if from.None? || to.None? {
        EdgeLinksFail(g, n + 1, |g.edges|);
        return None;
      }
      links := links + [Relationship(FrontendId(from.value), DEPENDS_ON, FrontendId(to.value))];
    }
    r := Some(links);
  }

  /** Append the links of the frontend graph; a key that is not found ends the work. */
  method FrontendLinks(g: Graph, start: seq<Relationship>) returns (r: Option<seq<Relationship>>)
    ensures r == match (RootLinks(g, |g.rootPackages|), EdgeLinks(g, |g.edges|))
                 case (Some(roots), Some(edges)) => Some(start + roots + edges)
                 case _ => None
  {
    r := PushRoots(g, start);
    if r.Some? {
      r := PushEdges(g, r.value);
    }
  }

  /** The generator's order of work: package links are collected on their own and appended to the file links. */
  method GeneratedRelationships(x: Inputs) returns (r: Option<seq<Relationship>>)
    ensures r == Links(x)
  {
    var fileLinks: seq<Relationship> := [];
    for n := 0 to |x.artifacts|
      invariant fileLinks == FileLinks(n)
    {
      fileLinks := fileLinks + [Relationship(PRODUCT_ID, CONTAINS, ArtifactId(n))];
    }
    var packageLinks: seq<Relationship> := [];
    for n := 0 to |x.locked|
      invariant packageLinks == CargoLinks(n)
    {
      packageLinks := packageLinks + [Relationship(PRODUCT_ID, DEPENDS_ON, CargoId(n))];
    }
    var rest := FrontendLinks(x.frontend, packageLinks);
    if rest.None? {
      return None;
    }
    LinksAssociate(x, fileLinks, rest.value);
    r := Some(fileLinks + rest.value);
  }

  lemma LinksAssociate(x: Inputs, fileLinks: seq<Relationship>, rest: seq<Relationship>)
    requires RootLinks(x.frontend, |x.frontend.rootPackages|).Some? && EdgeLinks(x.frontend, |x.frontend.edges|).Some?
    requires fileLinks == FileLinks(|x.artifacts|)
    requires rest == CargoLinks(|x.locked|) + RootLinks(x.frontend, |x.frontend.rootPackages|).value
                     + EdgeLinks(x.frontend, |x.frontend.edges|).value
    ensures Links(x) == Some(fileLinks + rest)
  {
    var cargo, roots, edges := CargoLinks(|x.locked|), RootLinks(x.frontend, |x.frontend.rootPackages|).value,
                               EdgeLinks(x.frontend, |x.frontend.edges|).value;
    assert fileLinks + (cargo + roots + edges) == fileLinks + cargo + roots + edges;
  }

  /** The validator's own list: everything is appended to one vector. */
  method ExpectedRelationships(x: Inputs) returns (r: Option<seq<Relationship>>)
    ensures r == Links(x)
  {
    var links: seq<Relationship> := [];
    for n := 0 to |x.artifacts|
      invariant links == FileLinks(n)
    {
      links := links + [Relationship(PRODUCT_ID, CONTAINS, ArtifactId(n))];
    }
    for n := 0 to |x.locked|
      invariant links == FileLinks(|x.artifacts|) + CargoLinks(n)
    {
      links := links + [Relationship(PRODUCT_ID, DEPENDS_ON, CargoId(n))];
    }
    r := FrontendLinks(x.frontend, links);
  }

  /** Every root and every end of an edge is found among the packages. */
  predicate Indexed(g: Graph)
  {
    && (forall n :: 0 <= n < |g.rootPackages| ==> PackageIndex(g, g.rootPackages[n]).Some?)
    && (forall n :: 0 <= n < |g.edges| ==>
          PackageIndex(g, g.edges[n].0).Some? && PackageIndex(g, g.edges[n].1).Some?)
  }

  lemma ComputedGraphIsIndexed(g: Graph, lock: Lock, resolve: Resolver)
    requires IsGraphOf(g, lock, resolve)
    ensures Indexed(g)
  {
    forall n | 0 <= n < |g.rootPackages|
      ensures PackageIndex(g, g.rootPackages[n]).Some?
    {
      EndpointsAreIndexed(g, lock, resolve, g.rootPackages[n]);
    }
    forall n | 0 <= n < |g.edges|
      ensures PackageIndex(g, g.edges[n].0).Some? && PackageIndex(g, g.edges[n].1).Some?
    {
      var e := g.edges[n];
      assert e in g.edges;
      EndpointsAreIndexed(g, lock, resolve, e.0);
      EndpointsAreIndexed(g, lock, resolve, e.1);
    }
  }

  lemma {:induction false} RootLinksExist(g: Graph, n: nat)
    requires Indexed(g) && n <= |g.rootPackages|
    ensures RootLinks(g, n).Some?
  {
    if n > 0 { RootLinksExist(g, n - 1); }
  }

  lemma {:induction false} EdgeLinksExist(g: Graph, n: nat)
    requires Indexed(g) && n <= |g.edges|
    ensures EdgeLinks(g, n).Some?
  {
    if n > 0 { EdgeLinksExist(g, n - 1); }
  }

  /** With a graph computed from a lock file no lookup fails, so a list of links always exists. */
  lemma LinksExist(x: Inputs, lock: Lock, resolve: Resolver)
    requires IsGraphOf(x.frontend, lock, resolve)
    ensures Links(x).Some?
  {
    ComputedGraphIsIndexed(x.frontend, lock, resolve);
    RootLinksExist(x.frontend, |x.frontend.rootPackages|);
    EdgeLinksExist(x.frontend, |x.frontend.edges|);
  }

  // ----- The generator -----

  function CargoEntry(x: Inputs, i: nat): PackageEntry
    requires i < |x.locked|
  {
    PackageEntry(Some(CargoId(i)), Some(x.locked[i].name), Some(x.locked[i].version), None, None)
  }

  function FrontendEntry(x: Inputs, i: nat): PackageEntry
    requires i < |x.frontend.packages|
  {
    var p := x.frontend.packages[i];
    PackageEntry(Some(FrontendId(i)), Some(p.name), Some(p.version), Some(NpmPurl(p)),
                 Some(KEY_MARKER + p.key + "; " + INTEGRITY_MARKER + p.integrity))
  }

  function PackageEntries(x: Inputs, version: string): seq<PackageEntry>
  {
    [PackageEntry(Some(PRODUCT_ID), Some("Sky Auto Player"), Some(version), None, None)]
    + seq(|x.locked|, i requires 0 <= i < |x.locked| => CargoEntry(x, i))
    + seq(|x.frontend.packages|, i requires 0 <= i < |x.frontend.packages| => FrontendEntry(x, i))
  }

  function FileEntries(artifacts: seq<Artifact>): seq<FileEntry>
  {
    seq(|artifacts|, i requires 0 <= i < |artifacts| =>
      FileEntry(Some(artifacts[i].name), Some([Checksum(Some(SHA256), Some(artifacts[i].sha256))])))
  }

  function Comment(x: Inputs): string
  {
    (ARTIFACT_SET_MARKER + x.artifactSet) + ("; git-head:" + x.head + "; ") + (CARGO_MARKER + x.cargoLock)
    + "; " + (BUN_MARKER + x.bunLock) + "; candidate-artifact-directory:canonical-tauri-nsis"
  }

  function Namespace(x: Inputs): string
  {
    "https://github.com/pumni/Sky-Auto-Player/sbom/" + x.head + "/" + x.artifactSet + "/" + x.cargoLock + "/" + x.bunLock
  }

  method Generate(x: Inputs, version: string) returns (r: Option<Document>)
    ensures r.Some? <==> Links(x).Some?
    ensures r.Some? ==> r.value == Generated(x, version)
  {
    var relationships := GeneratedRelationships(x);
    if relationships.None? {
      return None;
    }
    r := Some(Document(Some(SPDX_VERSION), Some(DATA_LICENSE), Some(DOCUMENT_ID), Some(Comment(x)), Some(Namespace(x)),
                       Some(PackageEntries(x, version)), Some(relationships.value), Some(FileEntries(x.artifacts))));
  }

  function Generated(x: Inputs, version: string): Document
    requires Links(x).Some?
  {
    Document(Some(SPDX_VERSION), Some(DATA_LICENSE), Some(DOCUMENT_ID), Some(Comment(x)), Some(Namespace(x)),
             Some(PackageEntries(x, version)), Links(x), Some(FileEntries(x.artifacts)))
  }

  // ----- The validator -----

  predicate HeaderOk(doc: Document, x: Inputs)
  {
    && doc.spdxVersion == Some(SPDX_VERSION) && doc.dataLicense == Some(DATA_LICENSE) && doc.id == Some(DOCUMENT_ID)
    && doc.comment.Some?
    && Contains(doc.comment.value, ARTIFACT_SET_MARKER + x.artifactSet)
    && Contains(doc.comment.value, CARGO_MARKER + x.cargoLock)
    && Contains(doc.comment.value, BUN_MARKER + x.bunLock)
    && doc.namespace.Some?
    && Contains(doc.namespace.value, x.head) && Contains(doc.namespace.value, x.artifactSet)
    && Contains(doc.namespace.value, x.cargoLock) && Contains(doc.namespace.value, x.bunLock)
  }

  predicate CargoEntryOk(entry: PackageEntry, x: Inputs, i: nat)
    requires i < |x.locked|
  {
    entry.id == Some(CargoId(i)) && entry.name == Some(x.locked[i].name) && entry.version == Some(x.locked[i].version)
  }

  predicate FrontendEntryOk(entry: PackageEntry, x: Inputs, i: nat)
    requires i < |x.frontend.packages|
  {
    var p := x.frontend.packages[i];
    && entry.id == Some(FrontendId(i)) && entry.name == Some(p.name) && entry.version == Some(p.version)
    && entry.locator == Some(NpmPurl(p))
    && entry.comment.Some?
    && Contains(entry.comment.value, KEY_MARKER + p.key)
    && Contains(entry.comment.value, INTEGRITY_MARKER + p.integrity)
  }

  predicate CargoEntryAt(entries: seq<PackageEntry>, x: Inputs, i: nat)
    requires i < |x.locked| && |entries| == |x.locked| + |x.frontend.packages| + 1
  {
    CargoEntryOk(entries[i + 1], x, i)
  }

  predicate FrontendEntryAt(entries: seq<PackageEntry>, x: Inputs, i: nat)
    requires i < |x.frontend.packages| && |entries| == |x.locked| + |x.frontend.packages| + 1
  {
    FrontendEntryOk(entries[|x.locked| + 1 + i], x, i)
  }

  predicate PackagesOk(entries: seq<PackageEntry>, x: Inputs)
  {
    && |entries| == |x.locked| + |x.frontend.packages| + 1
    && entries[0].id == Some(PRODUCT_ID)
    && (forall i :: 0 <= i < |x.locked| ==> CargoEntryAt(entries, x, i))
    && (forall i :: 0 <= i < |x.frontend.packages| ==> FrontendEntryAt(entries, x, i))
  }

  predicate FileEntryOk(f: FileEntry)
  {
    && f.name.Some? && f.checksums.Some? && |f.checksums.value| == 1
    && f.checksums.value[0].algorithm == Some(SHA256)
    && f.checksums.value[0].value.Some? && IsSha256(f.checksums.value[0].value.value)
  }

  /** What the validator reads off a file entry: its name and its digest in lower case. */
  function Reading(f: FileEntry): Row
  {
    if FileEntryOk(f) then Row(f.name.value, Lower(f.checksums.value[0].value.value)) else Malformed
  }

  function Readings(files: seq<FileEntry>): (r: seq<Row>)
    ensures |r| == |files|
    ensures forall i :: 0 <= i < |files| ==> r[i] == Reading(files[i])
  {
    seq(|files|, i requires 0 <= i < |files| => Reading(files[i]))
  }

  function ArtifactRow(a: Artifact): Row { Row(a.name, a.sha256) }

  function ArtifactRows(artifacts: seq<Artifact>): (r: seq<Row>)
    ensures |r| == |artifacts|
    ensures forall i :: 0 <= i < |artifacts| ==> r[i] == ArtifactRow(artifacts[i])
  {
    seq(|artifacts|, i requires 0 <= i < |artifacts| => ArtifactRow(artifacts[i]))
  }

  predicate FilesOk(files: seq<FileEntry>, artifacts: seq<Artifact>)
  {
    Matches(Readings(files), ArtifactRows(artifacts))
  }

  predicate Accepts(doc: Document, x: Inputs)
  {
    && HeaderOk(doc, x)
    && doc.packages.Some? && PackagesOk(doc.packages.value, x)
    && Links(x).Some? && doc.relationships == Links(x)
    && doc.files.Some? && FilesOk(doc.files.value, x.artifacts)
  }

  datatype SbomError = HeaderMismatch | PackageMismatch | RelationshipMismatch | FileMismatch

  method ValidatePackages(entries: seq<PackageEntry>, x: Inputs) returns (ok: bool)
    ensures ok <==> PackagesOk(entries, x)
  {
    if |entries| != |x.locked| + |x.frontend.packages| + 1 {
      return false;
    }
    if entries[0].id != Some(PRODUCT_ID) {
      return false;
    }
    for i := 0 to |x.locked|
      invariant forall j :: 0 <= j < i ==> CargoEntryAt(entries, x, j)
    {
      if !CargoEntryOk(entries[i + 1], x, i) {
        assert !CargoEntryAt(entries, x, i);
        return false;
      }
    }
    for i := 0 to |x.frontend.packages|
      invariant forall j :: 0 <= j < i ==> FrontendEntryAt(entries, x, j)
    {
      if !FrontendEntryOk(entries[|x.locked| + 1 + i], x, i) {
        assert !FrontendEntryAt(entries, x, i);
        return false;
      }
    }
    ok := true;
  }

  method ValidateFiles(files: seq<FileEntry>, artifacts: seq<Artifact>) returns (ok: bool)
    ensures ok <==> FilesOk(files, artifacts)
  {
    ok := Check(Readings(files), ArtifactRows(artifacts));
  }

  method ValidateDocument(doc: Document, x: Inputs) returns (r: Result<(), SbomError>)
    ensures r.Ok? <==> Accepts(doc, x)
  {
    if !HeaderOk(doc, x) {
      return Err(HeaderMismatch);
    }
    if doc.packages.None? {
      return Err(PackageMismatch);
    }
    var packagesOk := ValidatePackages(doc.packages.value, x);
    if !packagesOk {
      return Err(PackageMismatch);
    }
    var expected := ExpectedRelationships(x);
    if expected.None? || doc.relationships != expected {
      return Err(RelationshipMismatch);
    }
    if doc.files.None? {
      return Err(FileMismatch);
    }
    var filesOk := ValidateFiles(doc.files.value, x.artifacts);
    if !filesOk {
      return Err(FileMismatch);
    }
    r := Ok(());
  }

  // ----- The generator's document is accepted -----

  lemma ThreeParts(a: string, g: string, b: string, h: string, c: string, tail: string)
    ensures
      var text := a + g + b + h + c + tail;
      Contains(text, a) && Contains(text, b) && Contains(text, c)
  {
    var text := a + g + b + h + c + tail;
    assert text == [] + a + (g + b + h + c + tail);
    assert text == (a + g) + b + (h + c + tail);
    assert text == (a + g + b + h) + c + tail;
    ContainsPart([], a, g + b + h + c + tail);
    ContainsPart(a + g, b, h + c + tail);
    ContainsPart(a + g + b + h, c, tail);
  }

  lemma CommentBinds(x: Inputs)
    ensures Contains(Comment(x), ARTIFACT_SET_MARKER + x.artifactSet)
    ensures Contains(Comment(x), CARGO_MARKER + x.cargoLock)
    ensures Contains(Comment(x), BUN_MARKER + x.bunLock)
  {
    ThreeParts(ARTIFACT_SET_MARKER + x.artifactSet, "; git-head:" + x.head + "; ", CARGO_MARKER + x.cargoLock,
               "; ", BUN_MARKER + x.bunLock, "; candidate-artifact-directory:canonical-tauri-nsis");
  }

  lemma NamespaceBinds(x: Inputs)
    ensures Contains(Namespace(x), x.head) && Contains(Namespace(x), x.artifactSet)
    ensures Contains(Namespace(x), x.cargoLock) && Contains(Namespace(x), x.bunLock)
  {
    var site := "https://github.com/pumni/Sky-Auto-Player/sbom/";
    var h, a, c, b := x.head, x.artifactSet, x.cargoLock, x.bunLock;
    assert Namespace(x) == site + h + ("/" + a + "/" + c + "/" + b);
    assert Namespace(x) == (site + h + "/") + a + ("/" + c + "/" + b);
    assert Namespace(x) == (site + h + "/" + a + "/") + c + ("/" + b);
    assert Namespace(x) == (site + h + "/" + a + "/" + c + "/") + b + [];
    ContainsPart(site, h, "/" + a + "/" + c + "/" + b);
    ContainsPart(site + h + "/", a, "/" + c + "/" + b);
    ContainsPart(site + h + "/" + a + "/", c, "/" + b);
    ContainsPart(site + h + "/" + a + "/" + c + "/", b, []);
  }

  lemma FrontendEntryAccepted(x: Inputs, i: nat)
    requires i < |x.frontend.packages|
    ensures FrontendEntryOk(FrontendEntry(x, i), x, i)
  {
    var p := x.frontend.packages[i];
    var k, n := KEY_MARKER + p.key, INTEGRITY_MARKER + p.integrity;
    var comment := KEY_MARKER + p.key + "; " + INTEGRITY_MARKER + p.integrity;
    assert comment == [] + k + ("; " + n);
    assert comment == (k + "; ") + n + [];
    ContainsPart([], k, "; " + n);
    ContainsPart(k + "; ", n, []);
  }

  lemma PackageEntriesAccepted(x: Inputs, version: string)
    ensures PackagesOk(PackageEntries(x, version), x)
  {
    var entries := PackageEntries(x, version);
    forall i | 0 <= i < |x.locked|
      ensures CargoEntryAt(entries, x, i)
    {
      assert entries[i + 1] == CargoEntry(x, i);
    }
    forall i | 0 <= i < |x.frontend.packages|
      ensures FrontendEntryAt(entries, x, i)
    {
      assert entries[|x.locked| + 1 + i] == FrontendEntry(x, i);
      FrontendEntryAccepted(x, i);
    }
  }

  lemma FileEntriesAccepted(artifacts: seq<Artifact>)
    requires FromDirectory(artifacts)
    ensures FilesOk(FileEntries(artifacts), artifacts)
  {
    var files := FileEntries(artifacts);
    forall i | 0 <= i < |artifacts|
      ensures Readings(files)[i] == ArtifactRows(artifacts)[i]
    {
      assert FileEntryOk(files[i]);
    }
    assert Readings(files) == ArtifactRows(artifacts);
    MatchesItself(ArtifactRows(artifacts));
  }

  /** A document generated from a computed graph and a directory listing is accepted for the same inputs. */
  lemma GeneratedIsAccepted(x: Inputs, version: string, lock: Lock, resolve: Resolver)
    requires IsGraphOf(x.frontend, lock, resolve) && FromDirectory(x.artifacts)
    ensures Links(x).Some?
    ensures Accepts(Generated(x, version), x)
  {
    LinksExist(x, lock, resolve);
    CommentBinds(x);
    NamespaceBinds(x);
    PackageEntriesAccepted(x, version);
    FileEntriesAccepted(x.artifacts);
  }

  /** Generate and validate in sequence, for any lock file whose graph resolves. */
  method GenerateAndVerify(x: Inputs, version: string, ghost lock: Lock, ghost resolve: Resolver)
    returns (r: Result<(), SbomError>)
    requires IsGraphOf(x.frontend, lock, resolve) && FromDirectory(x.artifacts)
    ensures r.Ok?
  {
    GeneratedIsAccepted(x, version, lock, resolve);
    var doc := Generate(x, version);
    r := ValidateDocument(doc.value, x);
  }

  // ----- What acceptance forces -----

  /** An accepted document gives a file a digest exactly when the artifact directory does. */
  lemma AcceptedFilesAreTheArtifacts(doc: Document, x: Inputs, name: string, digest: string)
    requires Accepts(doc, x) && FromDirectory(x.artifacts)
    ensures Row(name, digest) in Readings(doc.files.value)
       <==> exists k :: 0 <= k < |x.artifacts| && x.artifacts[k].name == name && x.artifacts[k].sha256 == digest
  {
    var rows := ArtifactRows(x.artifacts);
    MatchingTablesAgree(Readings(doc.files.value), rows, Row(name, digest));
    if Row(name, digest) in rows {
      var k :| 0 <= k < |rows| && rows[k] == Row(name, digest);
      assert x.artifacts[k].name == name && x.artifacts[k].sha256 == digest;
    }
    if k :| 0 <= k < |x.artifacts| && x.artifacts[k].name == name && x.artifacts[k].sha256 == digest {
      assert rows[k] == Row(name, digest);
    }
  }

  // ----- What the links and identifiers mean -----

  const NPM_PREFIX := "SPDXRef-Package-Npm-"
  const CARGO_PREFIX := "SPDXRef-Package-Cargo-"
  const ARTIFACT_PREFIX := "SPDXRef-Artifact-"

  /** Identifiers of each kind are numbered from one in decimal. */
  lemma {:induction false} IdsCountFromOne(i: nat)
    ensures FrontendId(i) == NPM_PREFIX + Decimal.Text(i + 1) && Decimal.Value(Decimal.Text(i + 1)) == i + 1
    ensures CargoId(i) == CARGO_PREFIX + Decimal.Text(i + 1) && ArtifactId(i) == ARTIFACT_PREFIX + Decimal.Text(i + 1)
  {
    Decimal.ValueOfText(i + 1);
  }

  lemma {:induction false} NumbersDiffer(prefix: string, i: nat, j: nat)
    requires i != j
    ensures prefix + Decimal.Text(i) != prefix + Decimal.Text(j)
  {
    if prefix + Decimal.Text(i) == prefix + Decimal.Text(j) {
      assert (prefix + Decimal.Text(i))[|prefix|..] == Decimal.Text(i);
      assert (prefix + Decimal.Text(j))[|prefix|..] == Decimal.Text(j);
      Decimal.TextIsInjective(i, j);
    }
  }

  /** The letter that tells product, Cargo and npm packages apart. */
  function KindOf(x: Inputs, i: nat): char { if i == 0 then 'S' else if i <= |x.locked| then 'C' else 'N' }

  lemma IdShowsKind(x: Inputs, version: string, i: nat)
    requires i < |PackageEntries(x, version)|
    ensures
      var id := PackageEntries(x, version)[i].id;
      id.Some? && |id.value| > 16 && id.value[16] == KindOf(x, i)
  {
    var entry := PackageEntries(x, version)[i];
    if i == 0 {
      assert entry.id == Some(PRODUCT_ID);
    } else if i <= |x.locked| {
      assert entry == CargoEntry(x, i - 1);
      assert CARGO_PREFIX[16] == 'C' && |CARGO_PREFIX| == 22;
    } else {
      assert entry == FrontendEntry(x, i - 1 - |x.locked|);
      assert NPM_PREFIX[16] == 'N' && |NPM_PREFIX| == 20;
    }
  }

  /** No two packages of a document share an identifier. */
  lemma PackageIdsAreDistinct(x: Inputs, version: string, i: nat, j: nat)
    requires i < |PackageEntries(x, version)| && j < |PackageEntries(x, version)| && i != j
    ensures PackageEntries(x, version)[i].id != PackageEntries(x, version)[j].id
  {
    IdShowsKind(x, version, i);
    IdShowsKind(x, version, j);
    if KindOf(x, i) == KindOf(x, j) {
      if i <= |x.locked| {
        assert PackageEntries(x, version)[i] == CargoEntry(x, i - 1) && PackageEntries(x, version)[j] == CargoEntry(x, j - 1);
        NumbersDiffer(CARGO_PREFIX, i, j);
      } else {
        var a, b := i - 1 - |x.locked|, j - 1 - |x.locked|;
        assert PackageEntries(x, version)[i] == FrontendEntry(x, a) && PackageEntries(x, version)[j] == FrontendEntry(x, b);
        NumbersDiffer(NPM_PREFIX, a + 1, b + 1);
      }
    }
  }

  lemma {:induction false} FileLinkAt(n: nat, i: nat)
    requires i < n
    ensures FileLinks(n)[i] == Relationship("SPDXRef-Package-SkyAutoPlayer", "CONTAINS", ArtifactId(i))
  {
    if i < n - 1 { FileLinkAt(n - 1, i); }
  }

  lemma {:induction false} CargoLinkAt(n: nat, i: nat)
    requires i < n
    ensures CargoLinks(n)[i] == Relationship("SPDXRef-Package-SkyAutoPlayer", "DEPENDS_ON", CargoId(i))
  {
    if i < n - 1 { CargoLinkAt(n - 1, i); }
  }

  /** Root link `i` leads from the product to the package with the key of root `i`. */
  lemma {:induction false} RootLinkAt(g: Graph, n: nat, i: nat) returns (a: nat)
    requires i < n <= |g.rootPackages| && RootLinks(g, n).Some?
    ensures a < |g.packages| && g.packages[a].key == g.rootPackages[i]
    ensures |RootLinks(g, n).value| == n
    ensures RootLinks(g, n).value[i] == Relationship("SPDXRef-Package-SkyAutoPlayer", "DEPENDS_ON", FrontendId(a))
  {
    RootLinksLength(g, n - 1);
    if i < n - 1 {
      a := RootLinkAt(g, n - 1, i);
    } else {
      a := PackageIndex(g, g.rootPackages[i]).value;
    }
  }

  lemma {:induction false} RootLinksLength(g: Graph, n: nat)
    requires n <= |g.rootPackages| && RootLinks(g, n).Some?
    ensures |RootLinks(g, n).value| == n
  {
    if n > 0 { RootLinksLength(g, n - 1); }
  }

  lemma {:induction false} EdgeLinksLength(g: Graph, n: nat)
    requires n <= |g.edges| && EdgeLinks(g, n).Some?
    ensures |EdgeLinks(g, n).value| == n
  {
    if n > 0 { EdgeLinksLength(g, n - 1); }
  }

  /** Edge link `i` leads from the package that depends to the package it depends on. */
  lemma {:induction false} EdgeLinkAt(g: Graph, n: nat, i: nat) returns (a: nat, b: nat)
    requires i < n <= |g.edges| && EdgeLinks(g, n).Some?
    ensures a < |g.packages| && g.packages[a].key == g.edges[i].0
    ensures b < |g.packages| && g.packages[b].key == g.edges[i].1
    ensures |EdgeLinks(g, n).value| == n
    ensures EdgeLinks(g, n).value[i] == Relationship(FrontendId(a), "DEPENDS_ON", FrontendId(b))
  {
    EdgeLinksLength(g, n - 1);
    if i < n - 1 {
      a, b := EdgeLinkAt(g, n - 1, i);
    } else {
      a, b := PackageIndex(g, g.edges[i].0).value, PackageIndex(g, g.edges[i].1).value;
    }
  }

  /** In a document every edge of the graph is a link between the entries of its two ends, in that direction. */
  lemma EdgesLinkTheirEnds(x: Inputs, version: string, i: nat) returns (from: nat, to: nat)
    requires Links(x).Some? && i < |x.frontend.edges|
    ensures from < |x.frontend.packages| && x.frontend.packages[from].key == x.frontend.edges[i].0
    ensures to < |x.frontend.packages| && x.frontend.packages[to].key == x.frontend.edges[i].1
    ensures
      var entries, at := PackageEntries(x, version), |x.artifacts| + |x.locked| + |x.frontend.rootPackages| + i;
      && at < |Links(x).value|
      && entries[1 + |x.locked| + from].id.Some? && entries[1 + |x.locked| + to].id.Some?
      && Links(x).value[at]
         == Relationship(entries[1 + |x.locked| + from].id.value, "DEPENDS_ON", entries[1 + |x.locked| + to].id.value)
  {
    var g := x.frontend;
    from, to := EdgeLinkAt(g, |g.edges|, i);
    RootLinksLength(g, |g.rootPackages|);
    var entries := PackageEntries(x, version);
    assert entries[1 + |x.locked| + from] == FrontendEntry(x, from);
    assert entries[1 + |x.locked| + to] == FrontendEntry(x, to);
  }

  /** The product is linked to every file, every Cargo package and every root, in this order. */
  lemma ProductLinks(x: Inputs, version: string, i: nat)
    requires Links(x).Some?
    ensures i < |x.artifacts| ==> Links(x).value[i] == Relationship("SPDXRef-Package-SkyAutoPlayer", "CONTAINS", ArtifactId(i))
    ensures i < |x.locked| ==>
              var entry := PackageEntries(x, version)[1 + i];
              && entry.id.Some?
              && Links(x).value[|x.artifacts| + i]
                 == Relationship("SPDXRef-Package-SkyAutoPlayer", "DEPENDS_ON", entry.id.value)
  {
    if i < |x.artifacts| { FileLinkAt(|x.artifacts|, i); }
    if i < |x.locked| {
      CargoLinkAt(|x.locked|, i);
      assert PackageEntries(x, version)[1 + i] == CargoEntry(x, i);
    }
  }

  lemma RootsAreLinked(x: Inputs, version: string, i: nat) returns (to: nat)
    requires Links(x).Some? && i < |x.frontend.rootPackages|
    ensures to < |x.frontend.packages| && x.frontend.packages[to].key == x.frontend.rootPackages[i]
    ensures PackageEntries(x, version)[1 + |x.locked| + to].id.Some?
    ensures |x.artifacts| + |x.locked| + i < |Links(x).value|
    ensures Links(x).value[|x.artifacts| + |x.locked| + i]
         == Relationship("SPDXRef-Package-SkyAutoPlayer", "DEPENDS_ON", PackageEntries(x, version)[1 + |x.locked| + to].id.value)
  {
    var g := x.frontend;
    to := RootLinkAt(g, |g.rootPackages|, i);
    assert PackageEntries(x, version)[1 + |x.locked| + to] == FrontendEntry(x, to);
  }

  // ----- Package locators and digests -----

  function Unescaped(text: string): string
  {
    if text == [] then []
    else if "%40" <= text then "@" + Unescaped(text[3..])
    else if "%2F" <= text then "/" + Unescaped(text[3..])
    else [text[0]] + Unescaped(text[1..])
  }

  /** A name's own at-signs and slashes are escaped, and a name without percent signs can be read back. */
  lemma {:induction false} EscapedReadsBack(name: string)
    ensures '@' !in Escaped(name) && '/' !in Escaped(name)
    ensures '%' !in name ==> Unescaped(Escaped(name)) == name
  {
    if name != [] {
      EscapedReadsBack(name[1..]);
      EscapedStep(name);
    }
  }

  lemma {:induction false} EscapedStep(name: string)
    requires name != []
    ensures '%' !in name ==> Unescaped(Escaped(name)) == [name[0]] + Unescaped(Escaped(name[1..]))
  {
    if '%' !in name { UnescapedChar(name[0], Escaped(name[1..])); }
  }

  lemma {:induction false} UnescapedChar(c: char, rest: string)
    requires c != '%'
    ensures Unescaped(EscapedChar(c) + rest) == [c] + Unescaped(rest)
  {
    var text, at, slash := EscapedChar(c) + rest, "%40", "%2F";
    assert at[0] == '%' && at[1] == '4' && slash[0] == '%' && slash[1] == '2';
    if c == '@' {
      assert at <= text && text[3..] == rest;
    } else if c == '/' {
      assert slash <= text && text[1] == '2' && text[3..] == rest;
    } else {
      assert text[0] == c && text[1..] == rest;
    }
  }

  /** A package locator is the npm scheme, the escaped name, one at-sign and the version, and can be taken apart again. */
  lemma LocatorReadsBack(p: Package)
    ensures
      var text, k := NpmPurl(p), 8 + |Escaped(p.name)|;
      && "pkg:npm/" <= text && k < |text| && text[k] == '@' && '@' !in text[8..k] && text[k + 1..] == p.version
      && ('%' !in p.name ==> Unescaped(text[8..k]) == p.name)
  {
    var scheme, k := "pkg:npm/", 8 + |Escaped(p.name)|;
    EscapedReadsBack(p.name);
    assert NpmPurl(p)[8..k] == Escaped(p.name);
    assert NpmPurl(p)[k + 1..] == p.version;
  }

  lemma HexDigits(c: char)
    ensures IsHex(c) <==> c in "0123456789abcdefABCDEF"
  {
    var digits := "0123456789abcdefABCDEF";
    if '0' <= c <= '9' { assert digits[c as int - 48] == c; }
    if 'a' <= c <= 'f' { assert digits[c as int - 87] == c; }
    if 'A' <= c <= 'F' { assert digits[c as int - 49] == c; }
  }

  function ShownFiles(artifacts: seq<Artifact>, shown: seq<string>): (files: seq<FileEntry>)
    requires |shown| == |artifacts|
    ensures |files| == |artifacts|
  {
    seq(|artifacts|, i requires 0 <= i < |artifacts| =>
      FileEntry(Some(artifacts[i].name), Some([Checksum(Some("SHA256"), Some(shown[i]))])))
  }

  /** The digests may be written in either case, letter by letter; nothing else is accepted in their place. */
  lemma DigestCaseDoesNotMatter(artifacts: seq<Artifact>, shown: seq<string>)
    requires FromDirectory(artifacts) && |shown| == |artifacts|
    ensures FilesOk(ShownFiles(artifacts, shown), artifacts)
       <==> forall i :: 0 <= i < |shown| ==> IsSha256(shown[i]) && Lower(shown[i]) == artifacts[i].sha256
  {
    var files, rows := ShownFiles(artifacts, shown), ArtifactRows(artifacts);
    if forall i :: 0 <= i < |shown| ==> IsSha256(shown[i]) && Lower(shown[i]) == artifacts[i].sha256 {
      assert Readings(files) == rows;
      MatchesItself(rows);
    } else if FilesOk(files, artifacts) {
      forall i | 0 <= i < |shown|
        ensures IsSha256(shown[i]) && Lower(shown[i]) == artifacts[i].sha256
      {
        ShownDigestMatches(artifacts, shown, i);
      }
    }
  }

  lemma ShownDigestMatches(artifacts: seq<Artifact>, shown: seq<string>, i: nat)
    requires FromDirectory(artifacts) && |shown| == |artifacts| && i < |shown|
    requires FilesOk(ShownFiles(artifacts, shown), artifacts)
    ensures IsSha256(shown[i]) && Lower(shown[i]) == artifacts[i].sha256
  {
    var rows, wanted := Readings(ShownFiles(artifacts, shown)), ArtifactRows(artifacts);
    assert Fresh(rows, i) && rows[i] == Row(artifacts[i].name, Lower(shown[i]));
    assert wanted[i] in rows;
    var k :| 0 <= k < |rows| && rows[k] == wanted[i];
    assert Fresh(wanted, i) && Fresh(wanted, k) && Fresh(rows, k);
    assert wanted[k].name == wanted[i].name;
    assert k == i;
  }

  /** Every file of an accepted document has a name and exactly one checksum, a SHA-256 digest of 64 digits. */
  lemma AcceptedFileShape(doc: Document, x: Inputs, i: nat)
    requires Accepts(doc, x) && i < |doc.files.value|
    ensures
      var f := doc.files.value[i];
      && f.name.Some? && f.checksums.Some? && |f.checksums.value| == 1
      && f.checksums.value[0].algorithm == Some("SHA256") && f.checksums.value[0].value.Some?
      && var digest := f.checksums.value[0].value.value;
         |digest| == 64 && forall k :: 0 <= k < |digest| ==> digest[k] in "0123456789abcdefABCDEF"
  {
    assert Fresh(Readings(doc.files.value), i);
    var digest := doc.files.value[i].checksums.value[0].value.value;
    forall k | 0 <= k < |digest|
      ensures digest[k] in "0123456789abcdefABCDEF"
    {
      HexDigits(digest[k]);
    }
  }

  // ----- Acceptance leaves almost nothing open -----

  /** An accepted document agrees with the generated one on everything but free text and the product's name and version. */
  lemma AcceptedAgreesWithGenerated(doc: Document, x: Inputs, version: string, i: nat)
    requires Accepts(doc, x)
    ensures
      var ours := Generated(x, version);
      && doc.spdxVersion == ours.spdxVersion == Some("SPDX-2.3")
      && doc.dataLicense == ours.dataLicense == Some("CC0-1.0")
      && doc.id == ours.id == Some("SPDXRef-DOCUMENT")
      && doc.relationships == ours.relationships
      && |doc.packages.value| == |ours.packages.value|
      && (i < |doc.packages.value| ==> doc.packages.value[i].id == ours.packages.value[i].id)
      && (0 < i < |doc.packages.value| ==>
            doc.packages.value[i].name == ours.packages.value[i].name
            && doc.packages.value[i].version == ours.packages.value[i].version)
      && (|x.locked| < i < |doc.packages.value| ==> doc.packages.value[i].locator == ours.packages.value[i].locator)
  {
    var entries, ours := doc.packages.value, PackageEntries(x, version);
    assert |ours| == |x.locked| + |x.frontend.packages| + 1;
    if 0 < i <= |x.locked| {
      assert CargoEntryAt(entries, x, i - 1) && ours[i] == CargoEntry(x, i - 1);
    } else if |x.locked| < i < |entries| {
      var k := i - 1 - |x.locked|;
      assert FrontendEntryAt(entries, x, k) && ours[i] == FrontendEntry(x, k);
    }
  }

  /** An accepted document names the commit and all three digests where the generated one does. */
  lemma AcceptedIsBound(doc: Document, x: Inputs, i: nat)
    requires Accepts(doc, x)
    ensures Contains(doc.comment.value, "artifact-set-sha256:" + x.artifactSet)
    ensures Contains(doc.comment.value, "cargo-lockfile-sha256:" + x.cargoLock)
    ensures Contains(doc.comment.value, "bun-lockfile-sha256:" + x.bunLock)
    ensures Contains(doc.namespace.value, x.head) && Contains(doc.namespace.value, x.artifactSet)
    ensures Contains(doc.namespace.value, x.cargoLock) && Contains(doc.namespace.value, x.bunLock)
    ensures |doc.packages.value| == |x.locked| + |x.frontend.packages| + 1
    ensures i < |x.frontend.packages| ==>
      var comment := doc.packages.value[|x.locked| + 1 + i].comment;
      && comment.Some? && Contains(comment.value, "bun-lock-key:" + x.frontend.packages[i].key)
      && Contains(comment.value, "integrity:" + x.frontend.packages[i].integrity)
  {
    if i < |x.frontend.packages| { assert FrontendEntryAt(doc.packages.value, x, i); }
  }
}
