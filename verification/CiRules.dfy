/** The lanes of a validation run and what a single path can call for. */
module CiLanes {

  datatype Lane = Rust | Desktop | DesktopNative | DesktopE2e | Package | Updater | Release | SupplyChain | Site

  const LANES: set<Lane> := {Rust, Desktop, DesktopNative, DesktopE2e, Package, Updater, Release, SupplyChain, Site}

  lemma EveryLaneListed(lane: Lane)
    ensures lane in LANES
  {
  }

  /** The order in which the lanes are listed. */
  const LANE_ORDER: seq<Lane> :=
    [Rust, Desktop, DesktopNative, DesktopE2e, Package, Updater, Release, SupplyChain, Site]

  function LaneName(lane: Lane): string
  {
    match lane
    case Rust => "rust_required"
    case Desktop => "desktop_required"
    case DesktopNative => "desktop_native_required"
    case DesktopE2e => "desktop_e2e_required"
    case Package => "package_required"
    case Updater => "updater_required"
    case Release => "release_required"
    case SupplyChain => "supply_chain_required"
    case Site => "site_required"
  }

  /** What one path calls for. */
  datatype Verdict = Ignored | StaticOnly | Unknown | Requires(lanes: set<Lane>)
}

/** The rule table of the CI path classifier. */
module CiRules {
  import opened Wrappers
  import opened CiLanes

  predicate Starts(path: string, prefix: string) { prefix <= path }

  predicate Ends(path: string, suffix: string)
  {
    |suffix| <= |path| && path[|path| - |suffix|..] == suffix
  }

  /** The path without the prefix, or the empty name when it does not have it. */
  function Stripped(path: string, prefix: string): string { if prefix <= path then path[|prefix|..] else "" }

  // ----- The rule table, in order -----

  function DocumentRules(path: string): Option<Verdict>
  {
    if path == "README.md" || path == "CHANGELOG.md"
       || (Starts(path, "docs/") && !Starts(path, "docs/releases/"))
    then Some(Ignored)
    else if Starts(path, "docs/releases/") then Some(StaticOnly)
    else None
  }

  function SharedRules(path: string): Option<Verdict>
  {
    if path == ".bun-version" || path == "apps/website/package.json"
       || path == "scripts/toolchain-pin.mjs" || path == ".github/actions/setup-rust-pinned/action.yml"
    then Some(Requires(LANES))
    else if Starts(path, "apps/website/") || Starts(path, ".github/actions/site-validate/")
            || path == ".github/workflows/pages.yml"
    then Some(Requires({Site}))
    else None
  }

  function RepositoryRules(path: string): Option<Verdict>
  {
    if path == ".github/workflows/ci.yml"
            || (Starts(path, ".github/workflows/")
                && path != ".github/workflows/pages.yml" && path != ".github/workflows/release-v4.yml")
            || (Starts(path, ".github/actions/") && !Starts(path, ".github/actions/site-validate/"))
    then Some(Unknown)
    else if path == ".github/workflows/release-v4.yml" then Some(Requires({Release}))
    else if path == ".config/rust_architecture_allowlist.json" then Some(StaticOnly)
    else if path == ".config/security_audit_baseline.json" then Some(Requires({SupplyChain}))
    else None
  }

  function DesktopRules(path: string): Option<Verdict>
  {
    if path == "apps/desktop/src-tauri/Cargo.toml"
    then Some(Requires({Rust, Desktop, DesktopNative, Package, Updater, Release, SupplyChain, Site}))
    else if path == "apps/desktop/src-tauri/src/native_update.rs"
    then Some(Requires({Rust, Desktop, DesktopNative, Updater}))
    else if path == "apps/desktop/src-tauri/src/main.rs" || path == "apps/desktop/src-tauri/src/lib.rs"
    then Some(Requires({Rust, Desktop, DesktopNative, Package}))
    else if path == "apps/desktop/src-tauri/build.rs"
    then Some(Requires({Rust, Desktop, DesktopNative, Package, Updater}))
    else if path == "apps/desktop/src-tauri/tauri.conf.json"
    then Some(Requires({Desktop, DesktopNative, Package, Updater}))
    else if Starts(path, "apps/desktop/src-tauri/capabilities/")
    then Some(Requires({Desktop, DesktopNative, Package}))
    else if Starts(path, "apps/desktop/src-tauri/icons/") then Some(Requires({Package}))
    else if Starts(path, "apps/desktop/src-tauri/src/") then Some(Requires({Rust, Desktop, DesktopNative}))
    else if path == "apps/desktop/package.json" || path == "apps/desktop/bun.lock"
    then Some(Requires({Desktop, DesktopE2e, Package, Updater, SupplyChain}))
    else if Starts(path, "apps/desktop/") then Some(Requires({Desktop, DesktopE2e}))
    else None
  }

  predicate IsCrateManifest(path: string)
  {
    var remainder := Stripped(path, "rust/crates/");
    '/' !in remainder || Ends(remainder, "/Cargo.toml")
  }

  const SECURITY_SOURCES := "rust/crates/sky_windows_security/src/"

  function CrateRules(path: string): Option<Verdict>
  {
    if path == "Cargo.toml" || path == "rust/Cargo.toml" || path == "rust/Cargo.lock"
    then Some(Requires({Rust, Package, Updater, Release, SupplyChain}))
    else if path == SECURITY_SOURCES + "process_tree.rs"
            || path == SECURITY_SOURCES + "registry.rs"
            || path == SECURITY_SOURCES + "win32.rs"
    then Some(Requires({Rust, DesktopNative, Package, Release}))
    else if path == "rust/rust-toolchain.toml" || Starts(path, ".cargo/")
    then Some(Requires({Rust, Desktop, DesktopNative, Package, Updater, Release}))
    else if Starts(path, "rust/crates/")
    then Some(Requires(if IsCrateManifest(path) then {Rust, SupplyChain} else {Rust}))
    else None
  }

  const METADATA_SOURCE := "rust/xtask/src/release_metadata.rs"
  const SUPPLY_CHAIN_SOURCE := "rust/xtask/src/supply_chain.rs"

  function XtaskBoundaryRules(path: string): Option<Verdict>
  {
    if path == "rust/xtask/src/ci_classifier.rs" || path == "rust/xtask/src/ci.rs" || path == "rust/xtask/src/main.rs"
    then Some(Unknown)
    else if path == "rust/xtask/src/ci_artifacts.rs" || path == "rust/xtask/src/ci_candidate.rs"
            || path == "rust/xtask/src/ci_bridge.rs" || path == "rust/xtask/src/calibration.rs"
    then Some(Requires({Rust, DesktopNative, Package, Updater}))
    else if path == "rust/xtask/src/nsis_harness.rs" || path == "rust/xtask/src/process.rs"
            || path == "rust/xtask/src/process/unix.rs" || path == "rust/xtask/src/release_v4.rs"
            || path == "rust/xtask/src/release_v4/recovery.rs"
            || path == "rust/xtask/src/release_v4/recovery/process_smoke.rs"
    then Some(Requires({Rust, DesktopNative, Package, Release}))
    else if path == "rust/xtask/src/updater_fixture.rs"
    then Some(Requires({Rust, DesktopNative, Package, Updater, Release}))
    else None
  }

  function XtaskRules(path: string): Option<Verdict>
  {
    if !Starts(path, "rust/xtask/") then None
    else if path == "rust/xtask/src/tauri_bundle.rs" || path == "rust/xtask/src/sbom.rs"
            || path == "rust/xtask/src/builtin_catalog.rs"
    then Some(Requires({Rust, Package}))
    else if path == METADATA_SOURCE then Some(Requires({Updater, Release}))
    else if path == SUPPLY_CHAIN_SOURCE then Some(Requires({SupplyChain}))
    else Some(Requires({Rust}))
  }

  function DataRules(path: string): Option<Verdict>
  {
    if Starts(path, "tests/") then Some(Requires({Rust}))
    else if Starts(path, "songs/") || Starts(path, "builtin-songs/") then Some(Requires({Package}))
    else None
  }

  predicate IsUpdaterScript(path: string)
  {
    var name := Stripped(path, "scripts/");
    Ends(name, ".ps1")
    && (name == "ci_tauri_update_e2e.ps1" || name == "ci_tauri_update_e2e_core.ps1"
        || name == "ci_build_updater_bridge.ps1" || Starts(name, "test_v4_updater_")
        || Starts(name, "verify_v4_updater_") || Starts(name, "updater_"))
  }

  predicate IsSigningScript(path: string)
  {
    var name := Stripped(path, "scripts/");
    Ends(name, ".ps1")
    && (name == "sign_v4_authenticode.ps1" || name == "verify_v4_authenticode.ps1"
        || name == "v4_authenticode_crypto.ps1" || name == "setup_v4_test_signing.ps1"
        || name == "cleanup_v4_test_signing.ps1" || name == "test_v4_authenticode.ps1"
        || name == "test_v4_production_signing_contract.ps1")
  }

  predicate IsReleaseScript(path: string)
  {
    var name := Stripped(path, "scripts/");
    Ends(name, ".ps1")
    && (Starts(name, "v4_release_") || Starts(name, "test_v4_release_")
        || name == "orchestrate_v4_production_release.ps1" || name == "verify_v4_release_runner.ps1"
        || name == "cleanup_v4_release_state.ps1" || name == "v4_release_draft_lookup.ps1"
        || name == "test_v4_production_orchestrator.ps1")
  }

  function ScriptRules(path: string): Option<Verdict>
  {
    if path == "scripts/promote_v4_metadata.ps1" then Some(Requires({Updater, Release}))
    else if IsUpdaterScript(path) then Some(Requires({Updater}))
    else if IsSigningScript(path) then Some(Requires({Package}))
    else if path == "scripts/v4_nsis_smoke_boundary.ps1" || path == "scripts/test_v4_nsis_smoke_boundary.ps1"
    then Some(Requires({Release, Package}))
    else if IsReleaseScript(path) then Some(Requires({Release}))
    else if path == "scripts/ci_classify.ps1" || path == "scripts/test_ci_classify.ps1" then Some(Unknown)
    else if Starts(path, "scripts/") then Some(Requires({Rust, Desktop, DesktopNative}))
    else None
  }

  /** The first rule that applies; a path that no rule knows is unknown. */
  function ClassifyPath(path: string): Verdict
  {
    var a := DocumentRules(path); if a.Some? then a.value else
    var b := SharedRules(path); if b.Some? then b.value else
    var r := RepositoryRules(path); if r.Some? then r.value else
    var c := DesktopRules(path); if c.Some? then c.value else
    var d := CrateRules(path); if d.Some? then d.value else
    var e := XtaskBoundaryRules(path); if e.Some? then e.value else
    var x := XtaskRules(path); if x.Some? then x.value else
    var s := DataRules(path); if s.Some? then s.value else
    var f := ScriptRules(path); if f.Some? then f.value else
    Unknown
  }

  // ----- Which rules a path can meet at all -----

  /** The path begins with these two characters. */
  predicate Heads(path: string, head: string)
    requires |head| == 2
  {
    |path| >= 2 && path[0] == head[0] && path[1] == head[1]
  }

  lemma Apart(path: string, text: string)
    requires |path| >= 2 && |text| >= 2 && (path[0] != text[0] || path[1] != text[1])
    ensures path != text && !(text <= path)
  {
  }

  lemma SkipsDocumentRules(path: string)
    requires |path| >= 2 && !Heads(path, "RE") && !Heads(path, "CH") && !Heads(path, "do")
    ensures DocumentRules(path).None?
  {
  }

  lemma SkipsSharedRules(path: string)
    requires |path| >= 2 && !Heads(path, ".b") && !Heads(path, "ap") && !Heads(path, "sc") && !Heads(path, ".g")
    ensures SharedRules(path).None?
  {
    Apart(path, ".bun-version");
    Apart(path, "apps/website/package.json");
    Apart(path, "scripts/toolchain-pin.mjs");
    Apart(path, ".github/actions/setup-rust-pinned/action.yml");
    Apart(path, "apps/website/");
    Apart(path, ".github/actions/site-validate/");
    Apart(path, ".github/workflows/pages.yml");
  }

  lemma SkipsRepositoryRules(path: string)
    requires |path| >= 2 && !Heads(path, ".g") && !Heads(path, ".c")
    ensures RepositoryRules(path).None?
  {
    Apart(path, ".github/workflows/ci.yml");
    Apart(path, ".github/workflows/");
    Apart(path, ".github/workflows/pages.yml");
    Apart(path, ".github/workflows/release-v4.yml");
    Apart(path, ".github/actions/");
    Apart(path, ".github/actions/site-validate/");
    Apart(path, ".config/rust_architecture_allowlist.json");
    Apart(path, ".config/security_audit_baseline.json");
  }

  lemma SkipsDesktopRules(path: string)
    requires |path| >= 2 && !Heads(path, "ap")
    ensures DesktopRules(path).None?
  {
    Apart(path, "apps/desktop/src-tauri/Cargo.toml");
    Apart(path, "apps/desktop/src-tauri/src/native_update.rs");
    Apart(path, "apps/desktop/src-tauri/src/main.rs");
    Apart(path, "apps/desktop/src-tauri/src/lib.rs");
    Apart(path, "apps/desktop/src-tauri/build.rs");
    Apart(path, "apps/desktop/src-tauri/tauri.conf.json");
    Apart(path, "apps/desktop/src-tauri/capabilities/");
    Apart(path, "apps/desktop/src-tauri/icons/");
    Apart(path, "apps/desktop/src-tauri/src/");
    Apart(path, "apps/desktop/package.json");
    Apart(path, "apps/desktop/bun.lock");
    Apart(path, "apps/desktop/");
  }

  lemma SkipsCrateRules(path: string)
    requires |path| >= 2 && !Heads(path, "Ca") && !Heads(path, "ru") && !Heads(path, ".c")
    ensures CrateRules(path).None?
  {
    Apart(path, "Cargo.toml");
    Apart(path, "rust/Cargo.toml");
    Apart(path, "rust/Cargo.lock");
    Apart(path, SECURITY_SOURCES + "process_tree.rs");
    Apart(path, SECURITY_SOURCES + "registry.rs");
    Apart(path, SECURITY_SOURCES + "win32.rs");
    Apart(path, "rust/rust-toolchain.toml");
    Apart(path, ".cargo/");
    Apart(path, "rust/crates/");
  }

  lemma SkipsXtaskBoundaryRules(path: string)
    requires |path| >= 2 && !Heads(path, "ru")
    ensures XtaskBoundaryRules(path).None?
  {
    Apart(path, "rust/xtask/src/ci_classifier.rs");
    Apart(path, "rust/xtask/src/ci.rs");
    Apart(path, "rust/xtask/src/main.rs");
    Apart(path, "rust/xtask/src/ci_artifacts.rs");
    Apart(path, "rust/xtask/src/ci_candidate.rs");
    Apart(path, "rust/xtask/src/ci_bridge.rs");
    Apart(path, "rust/xtask/src/calibration.rs");
    Apart(path, "rust/xtask/src/nsis_harness.rs");
    Apart(path, "rust/xtask/src/process.rs");
    Apart(path, "rust/xtask/src/process/unix.rs");
    Apart(path, "rust/xtask/src/release_v4.rs");
    Apart(path, "rust/xtask/src/release_v4/recovery.rs");
    Apart(path, "rust/xtask/src/release_v4/recovery/process_smoke.rs");
    Apart(path, "rust/xtask/src/updater_fixture.rs");
  }

  lemma SkipsXtaskRules(path: string)
    requires |path| >= 2 && !Heads(path, "ru")
    ensures XtaskRules(path).None?
  {
    Apart(path, "rust/xtask/");
  }

  lemma SkipsDataRules(path: string)
    requires |path| >= 2 && !Heads(path, "te") && !Heads(path, "so") && !Heads(path, "bu")
    ensures DataRules(path).None?
  {
    Apart(path, "tests/");
    Apart(path, "songs/");
    Apart(path, "builtin-songs/");
  }

  lemma SkipsScriptRules(path: string)
    requires |path| >= 2 && !Heads(path, "sc")
    ensures ScriptRules(path).None?
  {
    Apart(path, "scripts/");
    Apart(path, "scripts/promote_v4_metadata.ps1");
    Apart(path, "scripts/v4_nsis_smoke_boundary.ps1");
    Apart(path, "scripts/test_v4_nsis_smoke_boundary.ps1");
    Apart(path, "scripts/ci_classify.ps1");
    Apart(path, "scripts/test_ci_classify.ps1");
  }

  /** No rule applies to a path that starts with a dot and a slash. */
  lemma DottedPathIsUnknown(path: string)
    requires "./" <= path
    ensures ClassifyPath(path) == Unknown
  {
    assert path[0] == '.' && path[1] == '/';
    SkipsDocumentRules(path);
    SkipsSharedRules(path);
    SkipsRepositoryRules(path);
    SkipsDesktopRules(path);
    SkipsCrateRules(path);
    SkipsXtaskBoundaryRules(path);
    SkipsXtaskRules(path);
    SkipsDataRules(path);
    SkipsScriptRules(path);
  }

  predicate HasLane(v: Verdict, lane: Lane) { v.Unknown? || (v.Requires? && lane in v.lanes) }

  /** What the table comes down to below `rust/`. */
  function RustVerdict(path: string): Verdict
  {
    var d := CrateRules(path); if d.Some? then d.value else
    var e := XtaskBoundaryRules(path); if e.Some? then e.value else
    var x := XtaskRules(path); if x.Some? then x.value else
    Unknown
  }

  lemma RustPathVerdict(path: string)
    requires "rust/" <= path
    ensures ClassifyPath(path) == RustVerdict(path)
  {
    assert path[0] == 'r' && path[1] == 'u';
    SkipsDocumentRules(path);
    SkipsSharedRules(path);
    SkipsRepositoryRules(path);
    SkipsDesktopRules(path);
    SkipsDataRules(path);
    SkipsScriptRules(path);
  }

  lemma CrateRulesRequireRust(path: string)
    ensures CrateRules(path).Some? ==> HasLane(CrateRules(path).value, Rust)
  {
  }

  lemma XtaskBoundaryRulesRequireRust(path: string)
    ensures XtaskBoundaryRules(path).Some? ==> HasLane(XtaskBoundaryRules(path).value, Rust)
  {
  }

  lemma ApartAt(path: string, text: string, i: nat)
    requires i < |path| && i < |text| && path[i] != text[i]
    ensures path != text && !(text <= path)
  {
  }

  lemma XtaskSkipsCrateRules(path: string)
    requires "rust/xtask/" <= path
    ensures CrateRules(path).None?
  {
    assert path[0] == 'r' && path[5] == 'x';
    ApartAt(path, "Cargo.toml", 0);
    ApartAt(path, "rust/Cargo.toml", 5);
    ApartAt(path, "rust/Cargo.lock", 5);
    ApartAt(path, SECURITY_SOURCES + "process_tree.rs", 5);
    ApartAt(path, SECURITY_SOURCES + "registry.rs", 5);
    ApartAt(path, SECURITY_SOURCES + "win32.rs", 5);
    ApartAt(path, "rust/rust-toolchain.toml", 5);
    ApartAt(path, ".cargo/", 0);
    ApartAt(path, "rust/crates/", 5);
  }

  lemma MetadataSkipsBoundaryRules(path: string)
    requires |path| == 34 && path[15] == 'r' && path[23] == 'm'
    ensures XtaskBoundaryRules(path).None?
  {
    ApartAt(path, "rust/xtask/src/ci_classifier.rs", 15);
    ApartAt(path, "rust/xtask/src/ci.rs", 15);
    ApartAt(path, "rust/xtask/src/main.rs", 15);
    ApartAt(path, "rust/xtask/src/ci_artifacts.rs", 15);
    ApartAt(path, "rust/xtask/src/ci_candidate.rs", 15);
    ApartAt(path, "rust/xtask/src/ci_bridge.rs", 15);
    ApartAt(path, "rust/xtask/src/calibration.rs", 15);
    ApartAt(path, "rust/xtask/src/nsis_harness.rs", 15);
    ApartAt(path, "rust/xtask/src/process.rs", 15);
    ApartAt(path, "rust/xtask/src/process/unix.rs", 15);
    ApartAt(path, "rust/xtask/src/release_v4.rs", 23);
    ApartAt(path, "rust/xtask/src/release_v4/recovery.rs", 23);
    ApartAt(path, "rust/xtask/src/release_v4/recovery/process_smoke.rs", 23);
    ApartAt(path, "rust/xtask/src/updater_fixture.rs", 15);
  }

  lemma SupplyChainSkipsBoundaryRules(path: string)
    requires |path| == 30 && path[15] == 's'
    ensures XtaskBoundaryRules(path).None?
  {
    ApartAt(path, "rust/xtask/src/ci_classifier.rs", 15);
    ApartAt(path, "rust/xtask/src/ci.rs", 15);
    ApartAt(path, "rust/xtask/src/main.rs", 15);
    ApartAt(path, "rust/xtask/src/ci_artifacts.rs", 15);
    ApartAt(path, "rust/xtask/src/ci_candidate.rs", 15);
    ApartAt(path, "rust/xtask/src/ci_bridge.rs", 15);
    ApartAt(path, "rust/xtask/src/calibration.rs", 15);
    ApartAt(path, "rust/xtask/src/nsis_harness.rs", 15);
    ApartAt(path, "rust/xtask/src/process.rs", 15);
    ApartAt(path, "rust/xtask/src/process/unix.rs", 15);
    ApartAt(path, "rust/xtask/src/release_v4.rs", 15);
    ApartAt(path, "rust/xtask/src/release_v4/recovery.rs", 15);
    ApartAt(path, "rust/xtask/src/release_v4/recovery/process_smoke.rs", 15);
    ApartAt(path, "rust/xtask/src/updater_fixture.rs", 15);
  }

  lemma XtaskLanes(path: string)
    requires "rust/xtask/" <= path
    ensures XtaskRules(path).Some? && XtaskRules(path).value.Requires?
    ensures Rust in XtaskRules(path).value.lanes <==> path != METADATA_SOURCE && path != SUPPLY_CHAIN_SOURCE
  {
    assert METADATA_SOURCE[15] == 'r' && SUPPLY_CHAIN_SOURCE[15] == 's' && SUPPLY_CHAIN_SOURCE[16] == 'u';
    assert "rust/xtask/src/tauri_bundle.rs"[15] == 't' && "rust/xtask/src/builtin_catalog.rs"[15] == 'b';
    assert "rust/xtask/src/sbom.rs"[15] == 's' && "rust/xtask/src/sbom.rs"[16] == 'b';
  }

  lemma RustVerdictElsewhere(path: string)
    requires path != METADATA_SOURCE && path != SUPPLY_CHAIN_SOURCE
    ensures HasLane(RustVerdict(path), Rust)
  {
    CrateRulesRequireRust(path);
    XtaskBoundaryRulesRequireRust(path);
    if "rust/xtask/" <= path { XtaskLanes(path); }
  }

  lemma ShapeOfSources()
    ensures "rust/xtask/" <= METADATA_SOURCE && "rust/xtask/" <= SUPPLY_CHAIN_SOURCE
    ensures |METADATA_SOURCE| == 34 && METADATA_SOURCE[15] == 'r' && METADATA_SOURCE[23] == 'm'
    ensures |SUPPLY_CHAIN_SOURCE| == 30 && SUPPLY_CHAIN_SOURCE[15] == 's'
  {
  }

  lemma RustVerdictOfSource(path: string)
    requires "rust/xtask/" <= path && XtaskBoundaryRules(path).None?
    ensures CrateRules(path).None? && RustVerdict(path) == XtaskRules(path).value
  {
    XtaskSkipsCrateRules(path);
    assert XtaskRules(path).Some?;
  }

  lemma SourcesWithoutRust(path: string)
    requires path == METADATA_SOURCE || path == SUPPLY_CHAIN_SOURCE
    ensures !HasLane(RustVerdict(path), Rust)
  {
    ShapeOfSources();
    if path == METADATA_SOURCE {
      MetadataSkipsBoundaryRules(path);
    } else {
      SupplyChainSkipsBoundaryRules(path);
    }
    RustVerdictOfSource(path);
    XtaskLanes(path);
  }

  /** Below `rust/` exactly two paths do not require the Rust lane, whichever rule decides the others. */
  lemma RustPathsRequireRust(path: string)
    requires "rust/" <= path
    ensures HasLane(ClassifyPath(path), Rust) <==> path != METADATA_SOURCE && path != SUPPLY_CHAIN_SOURCE
  {
    RustPathVerdict(path);
    if path == METADATA_SOURCE || path == SUPPLY_CHAIN_SOURCE {
      SourcesWithoutRust(path);
    } else {
      RustVerdictElsewhere(path);
    }
  }

  lemma DesktopSkipsSharedRules(path: string)
    requires "apps/desktop/" <= path
    ensures SharedRules(path).None?
  {
    assert path[0] == 'a' && path[5] == 'd';
    Apart(path, ".bun-version");
    Apart(path, "scripts/toolchain-pin.mjs");
    Apart(path, ".github/actions/setup-rust-pinned/action.yml");
    Apart(path, ".github/actions/site-validate/");
    Apart(path, ".github/workflows/pages.yml");
    assert "apps/website/"[5] == 'w' && "apps/website/package.json"[5] == 'w';
  }

  lemma DesktopRulesRequireDesktop(path: string)
    requires "apps/desktop/" <= path && !("apps/desktop/src-tauri/icons/" <= path)
    ensures DesktopRules(path).Some? && DesktopRules(path).value.Requires?
    ensures Desktop in DesktopRules(path).value.lanes
  {
  }

  lemma IconsRequirePackageOnly(path: string)
    requires "apps/desktop/src-tauri/icons/" <= path
    ensures DesktopRules(path) == Some(Requires({Package}))
  {
    var at := |"apps/desktop/src-tauri/"|;
    assert path[at] == 'i' && path[13] == 's';
    assert "apps/desktop/src-tauri/Cargo.toml"[at] == 'C' && "apps/desktop/src-tauri/build.rs"[at] == 'b';
    assert "apps/desktop/src-tauri/src/native_update.rs"[at] == 's' && "apps/desktop/src-tauri/src/main.rs"[at] == 's';
    assert "apps/desktop/src-tauri/src/lib.rs"[at] == 's' && "apps/desktop/src-tauri/tauri.conf.json"[at] == 't';
    assert "apps/desktop/src-tauri/capabilities/"[at] == 'c';
  }

  /** Below `apps/desktop/` exactly the icons do not require the desktop lane. */
  lemma DesktopPathsRequireDesktop(path: string)
    requires "apps/desktop/" <= path
    ensures ClassifyPath(path).Requires?
    ensures Desktop in ClassifyPath(path).lanes <==> !("apps/desktop/src-tauri/icons/" <= path)
  {
    assert path[0] == 'a' && path[1] == 'p';
    SkipsDocumentRules(path);
    DesktopSkipsSharedRules(path);
    SkipsRepositoryRules(path);
    if "apps/desktop/src-tauri/icons/" <= path {
      IconsRequirePackageOnly(path);
    } else {
      DesktopRulesRequireDesktop(path);
    }
  }
}
