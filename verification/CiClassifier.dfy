/**
 Classifying lists of changed paths.  The passes work for any rule table; the
 git and manual forms use the program's own.
 */
module CiClassifier {
  import opened Wrappers
  import opened CiLanes
  import opened CiRules

  type Rules = string -> Verdict

  // ----- Lists of paths -----

  predicate IsControl(c: char) { c < ' ' || '\U{7f}' <= c <= '\U{9f}' }

  /** The control characters are the C0 and C1 sets and delete. */
  lemma ControlCodes(c: char)
    ensures IsControl(c) <==> 0 <= c as int < 0x20 || 0x7F <= c as int < 0xA0
  {
  }

  predicate HasControl(path: string) { exists i :: 0 <= i < |path| && IsControl(path[i]) }

  /** The lanes one path contributes: all of them when it is malformed or unknown. */
  function LanesOf(rules: Rules, path: string): set<Lane>
  {
    if HasControl(path) then LANES
    else match rules(path)
         case Requires(lanes) => lanes
         case Unknown => LANES
         case _ => {}
  }

  /** The union of the contributions. */
  function Required(rules: Rules, paths: seq<string>): set<Lane>
  {
    if paths == [] then {} else Required(rules, paths[..|paths| - 1]) + LanesOf(rules, paths[|paths| - 1])
  }

  lemma {:induction false} RequiredIsUnion(rules: Rules, paths: seq<string>, lane: Lane)
    ensures lane in Required(rules, paths) <==> exists i :: 0 <= i < |paths| && lane in LanesOf(rules, paths[i])
  {
    if paths != [] {
      var front := paths[..|paths| - 1];
      RequiredIsUnion(rules, front, lane);
      assert forall i :: 0 <= i < |front| ==> paths[i] == front[i];
    }
  }

  datatype Classification = Classification(lanes: set<Lane>, reason: Reason)

  datatype Reason =
    | NoChangedPaths
    | Malformed
    | UnknownPaths(unknown: seq<string>)
    | Classified(staticOnly: bool)

  /** The paths that the table sends to full validation, in order. */
  function UnknownOf(rules: Rules, paths: seq<string>): seq<string>
  {
    if paths == [] then []
    else
      UnknownOf(rules, paths[..|paths| - 1])
      + if rules(paths[|paths| - 1]).Unknown? then [paths[|paths| - 1]] else []
  }

  lemma {:induction false} UnknownOfIsEmptyIff(rules: Rules, paths: seq<string>)
    ensures UnknownOf(rules, paths) == [] <==> forall i :: 0 <= i < |paths| ==> !rules(paths[i]).Unknown?
  {
    if paths != [] {
      var front := paths[..|paths| - 1];
      UnknownOfIsEmptyIff(rules, front);
      assert forall i :: 0 <= i < |front| ==> paths[i] == front[i];
    }
  }

  predicate AnyControl(paths: seq<string>) { exists i :: 0 <= i < |paths| && HasControl(paths[i]) }

  predicate AnyStaticOnly(rules: Rules, paths: seq<string>)
  {
    exists i :: 0 <= i < |paths| && rules(paths[i]).StaticOnly?
  }

  /** The whole result for a list of paths: the union of the lanes, and the case that decided it. */
  function Expected(rules: Rules, paths: seq<string>): Classification
  {
    Classification(Required(rules, paths),
                   if paths == [] then NoChangedPaths
                   else if AnyControl(paths) then Malformed
                   else if UnknownOf(rules, paths) != [] then UnknownPaths(UnknownOf(rules, paths))
                   else Classified(AnyStaticOnly(rules, paths)))
  }

  /** The program's pass: reject malformed lists, collect lanes, then fail closed on unknown paths. */
  method ClassifyNormalizedPaths(rules: Rules, paths: seq<string>) returns (c: Classification)
    ensures c == Expected(rules, paths)
  {
    if paths == [] {
      return Classification({}, NoChangedPaths);
    }
    if i :| 0 <= i < |paths| && HasControl(paths[i]) {
      FullWhen(rules, paths, i);
      return Classification(LANES, Malformed);
    }
    assert !AnyControl(paths);
    var lanes: set<Lane> := {};
    var unknown: seq<string> := [];
    var staticOnly: seq<string> := [];
    for n := 0 to |paths|
      invariant unknown == UnknownOf(rules, paths[..n])
      invariant unknown == [] ==> lanes == Required(rules, paths[..n])
      invariant staticOnly != [] <==> AnyStaticOnly(rules, paths[..n])
    {
      assert paths[..n + 1][..n] == paths[..n];
      StaticOnlyExtends(rules, paths, n);
      match rules(paths[n]) {
        case Ignored =>
        case StaticOnly =>
          staticOnly := staticOnly + [paths[n]];
        case Unknown =>
          unknown := unknown + [paths[n]];
        case Requires(more) =>
          lanes := lanes + more;
      }
    }
    assert paths[..|paths|] == paths;
    UnknownOfIsEmptyIff(rules, paths);
    if unknown != [] {
      ghost var i :| 0 <= i < |paths| && rules(paths[i]).Unknown?;
      FullWhen(rules, paths, i);
      return Classification(LANES, UnknownPaths(unknown));
    }
    c := Classification(lanes, Classified(staticOnly != []));
  }

  lemma StaticOnlyExtends(rules: Rules, paths: seq<string>, n: nat)
    requires n < |paths|
    ensures AnyStaticOnly(rules, paths[..n + 1]) <==> AnyStaticOnly(rules, paths[..n]) || rules(paths[n]).StaticOnly?
  {
    var before, after := paths[..n], paths[..n + 1];
    assert after == before + [paths[n]];
    if i :| 0 <= i < |before| && rules(before[i]).StaticOnly? {
      assert after[i] == before[i];
    }
    assert after[n] == paths[n];
  }

  /** One malformed or unknown path requires everything. */
  lemma {:induction false} FullWhen(rules: Rules, paths: seq<string>, i: nat)
    requires i < |paths| && (HasControl(paths[i]) || rules(paths[i]).Unknown?)
    ensures Required(rules, paths) == LANES
  {
    forall lane: Lane
      ensures lane in Required(rules, paths) <==> lane in LANES
    {
      EveryLaneListed(lane);
      RequiredIsUnion(rules, paths, lane);
      assert lane in LanesOf(rules, paths[i]);
    }
  }

  /** Concatenated lists require the union of what each requires. */
  lemma {:induction false} RequiredOfConcatenation(rules: Rules, p: seq<string>, q: seq<string>)
    ensures Required(rules, p + q) == Required(rules, p) + Required(rules, q)
  {
    forall lane: Lane
      ensures lane in Required(rules, p + q) <==> lane in Required(rules, p) + Required(rules, q)
    {
      RequiredIsUnion(rules, p, lane);
      RequiredIsUnion(rules, q, lane);
      RequiredIsUnion(rules, p + q, lane);
      if i :| 0 <= i < |p| && lane in LanesOf(rules, p[i]) {
        assert (p + q)[i] == p[i];
      }
      if i :| 0 <= i < |q| && lane in LanesOf(rules, q[i]) {
        assert (p + q)[|p| + i] == q[i];
      }
    }
  }

  /** Order and repetition do not matter, and more paths never need fewer lanes. */
  lemma {:induction false} RequiredIsMonotone(rules: Rules, p: seq<string>, q: seq<string>)
    requires forall x :: x in p ==> x in q
    ensures Required(rules, p) <= Required(rules, q)
  {
    forall lane | lane in Required(rules, p)
      ensures lane in Required(rules, q)
    {
      RequiredIsUnion(rules, p, lane);
      RequiredIsUnion(rules, q, lane);
      var i :| 0 <= i < |p| && lane in LanesOf(rules, p[i]);
      assert p[i] in q;
    }
  }

  // ----- Manual and git input -----

  /** Unicode white space. */
  predicate IsWhite(c: char)
  {
    '\t' <= c <= '\r' || c == ' ' || c == '\U{85}' || c == '\U{a0}' || c == '\U{1680}'
    || '\U{2000}' <= c <= '\U{200a}' || c == '\U{2028}' || c == '\U{2029}'
    || c == '\U{202f}' || c == '\U{205f}' || c == '\U{3000}'
  }

  /** White space is the 25 code points with the Unicode property of that name. */
  lemma WhiteCodes(c: char)
    ensures IsWhite(c)
       <==> || 0x9 <= c as int <= 0xD || 0x2000 <= c as int <= 0x200A
            || c as int in {0x20, 0x85, 0xA0, 0x1680, 0x2028, 0x2029, 0x202F, 0x205F, 0x3000}
  {
  }

  function TrimStart(s: string): string { if s != [] && IsWhite(s[0]) then TrimStart(s[1..]) else s }

  function TrimEnd(s: string): string { if s != [] && IsWhite(s[|s| - 1]) then TrimEnd(s[..|s| - 1]) else s }

  function Trim(s: string): string { TrimEnd(TrimStart(s)) }

  function Slashes(s: string): (r: string)
    ensures |r| == |s|
    ensures forall i :: 0 <= i < |s| ==> r[i] == if s[i] == '\\' then '/' else s[i]
  {
    seq(|s|, i requires 0 <= i < |s| => if s[i] == '\\' then '/' else s[i])
  }

  function DropDots(s: string): string { if "./" <= s then DropDots(s[2..]) else s }

  function NormalizeManualPath(raw: string): string { DropDots(Slashes(Trim(raw))) }

  predicate AllWhite(s: string) { forall i :: 0 <= i < |s| ==> IsWhite(s[i]) }

  /** No white space at either end. */
  predicate Trimmed(s: string) { s == [] || (!IsWhite(s[0]) && !IsWhite(s[|s| - 1])) }

  lemma {:induction false} TrimStartCuts(s: string) returns (a: string)
    ensures s == a + TrimStart(s) && AllWhite(a)
    ensures TrimStart(s) == [] || !IsWhite(TrimStart(s)[0])
  {
    a := [];
    if s != [] && IsWhite(s[0]) {
      var rest := TrimStartCuts(s[1..]);
      a := [s[0]] + rest;
      assert s == [s[0]] + s[1..];
    }
  }

  lemma {:induction false} TrimEndCuts(s: string) returns (b: string)
    ensures s == TrimEnd(s) + b && AllWhite(b)
    ensures TrimEnd(s) == [] || !IsWhite(TrimEnd(s)[|TrimEnd(s)| - 1])
  {
    b := [];
    if s != [] && IsWhite(s[|s| - 1]) {
      var rest := TrimEndCuts(s[..|s| - 1]);
      b := rest + [s[|s| - 1]];
      assert s == s[..|s| - 1] + [s[|s| - 1]];
    }
  }

  /** Trimming cuts white space, and only white space, off both ends. */
  lemma TrimCuts(s: string) returns (a: string, b: string)
    ensures s == a + Trim(s) + b && AllWhite(a) && AllWhite(b) && Trimmed(Trim(s))
  {
    a := TrimStartCuts(s);
    b := TrimEndCuts(TrimStart(s));
    assert Trim(s) != [] ==> Trim(s)[0] == TrimStart(s)[0];
  }

  function Dots(k: nat): string { if k == 0 then [] else "./" + Dots(k - 1) }

  /** All leading dot-slashes are dropped and nothing else. */
  lemma {:induction false} DropDotsCuts(s: string) returns (k: nat)
    ensures s == Dots(k) + DropDots(s) && !("./" <= DropDots(s))
  {
    k := 0;
    if "./" <= s {
      var rest := DropDotsCuts(s[2..]);
      k := rest + 1;
      DotsStep(s, rest, DropDots(s[2..]));
    }
  }

  lemma DotsStep(s: string, k: nat, r: string)
    requires "./" <= s && s[2..] == Dots(k) + r
    ensures s == Dots(k + 1) + r
  {
    var two := "./";
    assert s == two + s[2..];
    assert two + (Dots(k) + r) == (two + Dots(k)) + r;
  }

  /** What normalising a manual path does: trim, turn backslashes into slashes, drop leading dot-slashes. */
  lemma NormalizedManualPath(raw: string) returns (a: string, body: string, b: string, k: nat)
    ensures raw == a + body + b && AllWhite(a) && AllWhite(b) && Trimmed(body)
    ensures |body| == |Dots(k) + NormalizeManualPath(raw)|
    ensures forall i :: 0 <= i < |body| ==>
              (Dots(k) + NormalizeManualPath(raw))[i] == if body[i] == '\\' then '/' else body[i]
    ensures !("./" <= NormalizeManualPath(raw))
  {
    a, b := TrimCuts(raw);
    body := Trim(raw);
    k := DropDotsCuts(Slashes(body));
  }

  /** The normalised paths that are not blank. */
  function ManualPaths(raw: seq<string>): seq<string>
  {
    if raw == [] then []
    else
      var path := NormalizeManualPath(raw[0]);
      (if Trim(path) == "" then [] else [path]) + ManualPaths(raw[1..])
  }

  function ManualLanes(raw: seq<string>): set<Lane> { Required(ClassifyPath, ManualPaths(raw)) }

  predicate MalformedGitPath(path: string)
  {
    path == "" || Trim(path) != path || '\\' in path || HasControl(path)
  }

  /** A git path is malformed if it is empty or has control characters, or if trimming or slashing would change it. */
  lemma MalformedGitPathIff(path: string)
    ensures MalformedGitPath(path) <==> path == "" || HasControl(path) || Slashes(Trim(path)) != path
  {
    if Trim(path) == path {
      if i :| 0 <= i < |path| && path[i] == '\\' {
        assert Slashes(path)[i] != path[i];
      } else {
        assert Slashes(path) == path;
      }
    } else {
      var a, b := TrimCuts(path);
      assert |Slashes(Trim(path))| < |path|;
    }
  }

  function GitLanes(paths: seq<string>): set<Lane>
  {
    if exists i :: 0 <= i < |paths| && MalformedGitPath(paths[i]) then LANES else Required(ClassifyPath, paths)
  }

  /** The form for a hand-written list of paths. */
  method ClassifyPaths(raw: seq<string>) returns (c: Classification)
    ensures c == Expected(ClassifyPath, ManualPaths(raw)) && c.lanes == ManualLanes(raw)
    ensures c.reason.NoChangedPaths? <==> forall i :: 0 <= i < |raw| ==> Trim(NormalizeManualPath(raw[i])) == ""
  {
    BlankPathsIff(raw);
    c := ClassifyNormalizedPaths(ClassifyPath, ManualPaths(raw));
  }

  lemma {:induction false} BlankPathsIff(raw: seq<string>)
    ensures ManualPaths(raw) == [] <==> forall i :: 0 <= i < |raw| ==> Trim(NormalizeManualPath(raw[i])) == ""
  {
    if raw != [] {
      BlankPathsIff(raw[1..]);
    }
  }

  predicate AnyMalformed(paths: seq<string>) { exists i :: 0 <= i < |paths| && MalformedGitPath(paths[i]) }

  /** The form for the paths that git reports. */
  method ClassifyGitPaths(paths: seq<string>) returns (c: Classification)
    ensures c == if AnyMalformed(paths) then Classification(LANES, Malformed) else Expected(ClassifyPath, paths)
    ensures c.lanes == GitLanes(paths)
  {
    if i :| 0 <= i < |paths| && MalformedGitPath(paths[i]) {
      return Classification(LANES, Malformed);
    }
    c := ClassifyNormalizedPaths(ClassifyPath, paths);
  }

  lemma WellFormedGitPath(path: string)
    requires !MalformedGitPath(path)
    ensures LanesOf(ClassifyPath, NormalizeManualPath(path)) <= LanesOf(ClassifyPath, path)
  {
    assert Slashes(path) == path;
    if "./" <= path {
      DottedPathIsUnknown(path);
      forall lane: Lane { EveryLaneListed(lane); }
    }
  }

  lemma {:induction false} ManualPathsUnfold(raw: seq<string>)
    requires raw != []
    ensures
      var path := NormalizeManualPath(raw[0]);
      ManualPaths(raw) == (if Trim(path) == "" then [] else [path]) + ManualPaths(raw[1..])
  {
  }

  lemma {:induction false} ManualPathHasSource(raw: seq<string>, j: nat) returns (i: nat)
    requires j < |ManualPaths(raw)|
    ensures i < |raw| && ManualPaths(raw)[j] == NormalizeManualPath(raw[i])
  {
    ManualPathsUnfold(raw);
    var kept := |ManualPaths(raw)| - |ManualPaths(raw[1..])|;
    if j < kept {
      i := 0;
    } else {
      var k := ManualPathHasSource(raw[1..], j - kept);
      i := k + 1;
    }
  }

  /** Every path that is not blank after normalising is kept. */
  lemma {:induction false} ManualPathIsKept(raw: seq<string>, i: nat)
    requires i < |raw| && Trim(NormalizeManualPath(raw[i])) != ""
    ensures NormalizeManualPath(raw[i]) in ManualPaths(raw)
  {
    ManualPathsUnfold(raw);
    if i > 0 { ManualPathIsKept(raw[1..], i - 1); }
  }

  /** On one list of paths the git form requires at least the lanes that the manual form requires. */
  lemma GitRequiresAtLeastManual(paths: seq<string>)
    ensures ManualLanes(paths) <= GitLanes(paths)
  {
    forall lane | lane in ManualLanes(paths)
      ensures lane in GitLanes(paths)
    {
      EveryLaneListed(lane);
      if !exists i :: 0 <= i < |paths| && MalformedGitPath(paths[i]) {
        RequiredIsUnion(ClassifyPath, ManualPaths(paths), lane);
        var j :| 0 <= j < |ManualPaths(paths)| && lane in LanesOf(ClassifyPath, ManualPaths(paths)[j]);
        var i := ManualPathHasSource(paths, j);
        assert !MalformedGitPath(paths[i]);
        WellFormedGitPath(paths[i]);
        RequiredIsUnion(ClassifyPath, paths, lane);
      }
    }
  }
}
