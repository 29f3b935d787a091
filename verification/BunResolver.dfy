/** Resolving one dependency of a Bun lock file. */
module BunResolver {
  import opened Wrappers
  import opened Ordering

  datatype Package = Package(
    key: string,
    name: string,
    version: string,
    integrity: string,
    dependencies: map<string, string>)

  /** The lock file's package table and the root workspace's production dependencies. */
  datatype Lock = Lock(packages: map<string, Package>, roots: map<string, string>)
  {
    /** The table is filled with each package under its own key. */
    predicate WellKeyed() { forall k :: k in packages ==> packages[k].key == k }
  }

  datatype ResolveError =
    | Unresolved(name: string, requirement: string, parent: string)
    | Ambiguous(name: string, requirement: string, parent: string)

  /** Version matching is the semantic-versioning library's; any relation will do here. */
  type Matcher = (string, string) -> bool

  predicate Fits(packages: map<string, Package>, matches: Matcher, key: string, name: string, requirement: string)
  {
    key in packages && packages[key].name == name && matches(packages[key].version, requirement)
  }

  function Preferred(parent: string, name: string): string { if parent == "" then name else parent + "/" + name }

  function Candidates(packages: map<string, Package>, matches: Matcher, name: string, requirement: string): set<string>
  {
    set k | k in packages && packages[k].name == name && matches(packages[k].version, requirement)
  }

  function Resolve(packages: map<string, Package>, matches: Matcher,
                   parent: string, name: string, requirement: string): Result<string, ResolveError>
  {
    var preferred := Preferred(parent, name);
    if preferred in packages && packages[preferred].name == name && matches(packages[preferred].version, requirement)
    then Ok(preferred)
    else
      var candidates := SortedStrings(Candidates(packages, matches, name, requirement));
      if |candidates| == 1 then Ok(candidates[0])
      else if candidates == [] then Err(Unresolved(name, requirement, parent))
      else Err(Ambiguous(name, requirement, parent))
  }

  lemma OnlyCandidate(candidates: set<string>, key: string)
    ensures SortedStrings(candidates) == [key] <==> key in candidates && forall k :: k in candidates ==> k == key
  {
  }

  /** A dependency resolves to its nested entry if that fits, and otherwise to the only entry that fits. */
  lemma ResolveIff(packages: map<string, Package>, matches: Matcher,
                   parent: string, name: string, requirement: string, key: string)
    ensures Resolve(packages, matches, parent, name, requirement) == Ok(key)
       <==> && Fits(packages, matches, key, name, requirement)
            && (Fits(packages, matches, Preferred(parent, name), name, requirement)
                ==> key == Preferred(parent, name))
            && (!Fits(packages, matches, Preferred(parent, name), name, requirement)
                ==> forall k :: Fits(packages, matches, k, name, requirement) ==> k == key)
  {
    var candidates := Candidates(packages, matches, name, requirement);
    if !Fits(packages, matches, Preferred(parent, name), name, requirement) {
      OnlyCandidate(candidates, key);
      assert Resolve(packages, matches, parent, name, requirement) == Ok(key) <==> SortedStrings(candidates) == [key];
      assert forall k :: Fits(packages, matches, k, name, requirement) <==> k in candidates;
    }
  }

  /** Below a package the entry nested under its key comes first; at the root, the entry of the name itself. */
  lemma NestedEntryWins(packages: map<string, Package>, matches: Matcher, parent: string, name: string, requirement: string)
    ensures parent != "" && Fits(packages, matches, parent + "/" + name, name, requirement) ==>
              Resolve(packages, matches, parent, name, requirement) == Ok(parent + "/" + name)
    ensures parent == "" && Fits(packages, matches, name, name, requirement) ==>
              Resolve(packages, matches, parent, name, requirement) == Ok(name)
  {
  }

  predicate NoNestedEntry(packages: map<string, Package>, matches: Matcher, parent: string, name: string, requirement: string)
  {
    if parent == "" then !Fits(packages, matches, name, name, requirement)
    else !Fits(packages, matches, parent + "/" + name, name, requirement)
  }

  /** Otherwise the only entry that fits is taken, and the error tells whether none or several do. */
  lemma OtherwiseTheOnlyEntry(packages: map<string, Package>, matches: Matcher,
                              parent: string, name: string, requirement: string, key: string)
    requires NoNestedEntry(packages, matches, parent, name, requirement)
    ensures Resolve(packages, matches, parent, name, requirement) == Ok(key)
       <==> && Fits(packages, matches, key, name, requirement)
            && forall k :: Fits(packages, matches, k, name, requirement) ==> k == key
    ensures Resolve(packages, matches, parent, name, requirement) == Err(Unresolved(name, requirement, parent))
       <==> forall k :: !Fits(packages, matches, k, name, requirement)
    ensures Resolve(packages, matches, parent, name, requirement) == Err(Ambiguous(name, requirement, parent))
       <==> exists j, k :: j != k && Fits(packages, matches, j, name, requirement) && Fits(packages, matches, k, name, requirement)
  {
    ResolveIff(packages, matches, parent, name, requirement, key);
    var candidates := Candidates(packages, matches, name, requirement);
    var listed := SortedStrings(candidates);
    assert forall k :: Fits(packages, matches, k, name, requirement) <==> k in candidates;
    SortedStringsAscend(candidates);
    if |listed| >= 2 {
      assert listed[0] in listed && listed[1] in listed && listed[0] != listed[1];
    } else if |listed| == 1 {
      OnlyCandidate(candidates, listed[0]);
    }
  }

  lemma ResolvedFits(packages: map<string, Package>, matches: Matcher, parent: string, name: string, requirement: string)
    ensures
      var r := Resolve(packages, matches, parent, name, requirement);
      r.Ok? ==> Fits(packages, matches, r.value, name, requirement)
  {
  }
}
