/**
 Masking a credential in captured process output: one pass over the original
 bytes that replaces each occurrence of the secret, in UTF-8 or UTF-16LE, by a
 fixed marker.
 */
module Redaction {
  import opened Wrappers
  import opened Texts

  /** A byte, written as the character with its code. */
  type Byte = char
  type Unit = u: int | 0 <= u < 0x1_0000 witness 0

  const MARKER: seq<Byte> := "[REDACTED]"

  /** A secret as its UTF-8 bytes and its UTF-16 code units. */
  datatype Secret = Secret(utf8: seq<Byte>, utf16: seq<Unit>)

  function LittleEndian(units: seq<Unit>): (r: seq<Byte>)
    ensures |r| == 2 * |units|
  {
    if units == [] then []
    else [(units[0] % 256) as char, (units[0] / 256) as char] + LittleEndian(units[1..])
  }

  /** Unit `i` is stored as its low byte and then its high byte. */
  lemma {:induction false} LittleEndianBytes(units: seq<Unit>, i: nat)
    requires i < |units|
    ensures
      var r := LittleEndian(units);
      && r[2 * i] as int < 256 && r[2 * i + 1] as int < 256
      && r[2 * i] as int + 256 * r[2 * i + 1] as int == units[i]
  {
    if i > 0 {
      LittleEndianBytes(units[1..], i - 1);
      var rest := LittleEndian(units[1..]);
      assert LittleEndian(units)[2 * i] == rest[2 * (i - 1)];
      assert LittleEndian(units)[2 * i + 1] == rest[2 * (i - 1) + 1];
    }
  }

  /** Both encodings, the longer one first; equal lengths keep UTF-8 in front. */
  function Patterns(secret: Secret): seq<seq<Byte>>
  {
    var utf16le := LittleEndian(secret.utf16);
    if |utf16le| > |secret.utf8| then [utf16le, secret.utf8] else [secret.utf8, utf16le]
  }

  predicate MatchesAt(output: seq<Byte>, offset: nat, p: seq<Byte>)
  {
    p != [] && OccursAt(output, p, offset)
  }

  // ----- Specification: a split of the output into copied bytes and whole occurrences -----

  datatype Split = End | Copied(byte: Byte, rest: Split) | Masked(pattern: seq<Byte>, rest: Split)

  /** The first listed pattern that matches here. */
  function FirstMatch(patterns: seq<seq<Byte>>, output: seq<Byte>, offset: nat): (r: Option<seq<Byte>>)
    ensures r.Some? ==> r.value in patterns && MatchesAt(output, offset, r.value)
  {
    if patterns == [] then None
    else if MatchesAt(output, offset, patterns[0]) then Some(patterns[0])
    else FirstMatch(patterns[1..], output, offset)
  }

  function SplitFrom(patterns: seq<seq<Byte>>, output: seq<Byte>, offset: nat): Split
    requires offset <= |output|
    decreases |output| - offset
  {
    if offset == |output| then End
    else
      match FirstMatch(patterns, output, offset)
      case Some(p) => Masked(p, SplitFrom(patterns, output, offset + |p|))
      case None => Copied(output[offset], SplitFrom(patterns, output, offset + 1))
  }

  function Original(split: Split): seq<Byte>
  {
    match split
    case End => []
    case Copied(b, rest) => [b] + Original(rest)
    case Masked(p, rest) => p + Original(rest)
  }

  function Rendered(split: Split, marker: seq<Byte>): seq<Byte>
  {
    match split
    case End => []
    case Copied(b, rest) => [b] + Rendered(rest, marker)
    case Masked(_, rest) => marker + Rendered(rest, marker)
  }

  function Redact(output: seq<Byte>, secret: Secret): seq<Byte>
  {
    if secret.utf8 == [] then output else Rendered(SplitFrom(Patterns(secret), output, 0), MARKER)
  }

  // ----- The program's loop -----

  /** The first pattern in the list that matches at `offset`. */
  method FindPattern(patterns: seq<seq<Byte>>, output: seq<Byte>, offset: nat) returns (found: Option<seq<Byte>>)
    ensures found == FirstMatch(patterns, output, offset)
  {
    for i := 0 to |patterns|
      invariant FirstMatch(patterns[i..], output, offset) == FirstMatch(patterns, output, offset)
    {
      var p := patterns[i];
      if p != [] && offset + |p| <= |output| && output[offset..offset + |p|] == p {
        return Some(p);
      }
    }
    found := None;
  }

  lemma RenderStep(patterns: seq<seq<Byte>>, marker: seq<Byte>, output: seq<Byte>, offset: nat, done: seq<Byte>)
    requires offset < |output|
    ensures
      var whole := done + Rendered(SplitFrom(patterns, output, offset), marker);
      match FirstMatch(patterns, output, offset)
      case Some(p) => whole == (done + marker) + Rendered(SplitFrom(patterns, output, offset + |p|), marker)
      case None => whole == (done + [output[offset]]) + Rendered(SplitFrom(patterns, output, offset + 1), marker)
  {
  }

  method Scan(patterns: seq<seq<Byte>>, marker: seq<Byte>, output: seq<Byte>) returns (redacted: seq<Byte>)
    ensures redacted == Rendered(SplitFrom(patterns, output, 0), marker)
  {
    redacted := [];
    var offset := 0;
    while offset < |output|
      invariant offset <= |output|
      invariant redacted + Rendered(SplitFrom(patterns, output, offset), marker)
             == Rendered(SplitFrom(patterns, output, 0), marker)
    {
      var found := FindPattern(patterns, output, offset);
      RenderStep(patterns, marker, output, offset, redacted);
      if found.Some? {
        redacted := redacted + marker;
        offset := offset + |found.value|;
      } else {
        redacted := redacted + [output[offset]];
        offset := offset + 1;
      }
    }
  }

  method RedactSecretBytes(output: seq<Byte>, secret: Secret) returns (redacted: seq<Byte>)
    ensures redacted == Redact(output, secret)
  {
    if secret.utf8 == [] {
      return output;
    }
    redacted := Scan(Patterns(secret), MARKER, output);
  }

  // ----- The split is faithful, and the only faithful one -----

  ghost predicate NoneMatch(patterns: seq<seq<Byte>>, output: seq<Byte>, offset: nat)
  {
    forall p {:trigger MatchesAt(output, offset, p)} :: p in patterns ==> !MatchesAt(output, offset, p)
  }

  ghost predicate LongestMatch(patterns: seq<seq<Byte>>, output: seq<Byte>, offset: nat, p: seq<Byte>)
  {
    p in patterns && MatchesAt(output, offset, p)
    && forall q {:trigger MatchesAt(output, offset, q)} ::
         q in patterns && MatchesAt(output, offset, q) ==> |q| <= |p|
  }

  /**
   Read from `offset` to the end, each piece is either a byte where no pattern
   begins or a pattern that matches and is as long as any that does.
   */
  ghost predicate Faithful(patterns: seq<seq<Byte>>, output: seq<Byte>, offset: nat, split: Split)
    decreases split
  {
    match split
    case End => offset == |output|
    case Copied(b, rest) =>
      && offset < |output| && b == output[offset] && NoneMatch(patterns, output, offset)
      && Faithful(patterns, output, offset + 1, rest)
    case Masked(p, rest) =>
      && LongestMatch(patterns, output, offset, p)
      && Faithful(patterns, output, offset + |p|, rest)
  }

  predicate LongestFirst(patterns: seq<seq<Byte>>)
  {
    forall i, j :: 0 <= i < j < |patterns| ==> |patterns[i]| >= |patterns[j]|
  }

  lemma PatternsAreLongestFirst(secret: Secret)
    ensures LongestFirst(Patterns(secret))
    ensures secret.utf8 in Patterns(secret) && LittleEndian(secret.utf16) in Patterns(secret)
  {
  }

  lemma {:induction false} FirstMatchIsLongest(patterns: seq<seq<Byte>>, output: seq<Byte>, offset: nat, q: seq<Byte>)
    requires q in patterns && MatchesAt(output, offset, q)
    ensures FirstMatch(patterns, output, offset).Some?
    ensures LongestFirst(patterns) ==> |q| <= |FirstMatch(patterns, output, offset).value|
  {
    if !MatchesAt(output, offset, patterns[0]) {
      assert patterns == [patterns[0]] + patterns[1..];
      FirstMatchIsLongest(patterns[1..], output, offset, q);
    }
  }

  lemma {:induction false} FirstMatchDecides(patterns: seq<seq<Byte>>, output: seq<Byte>, offset: nat)
    ensures FirstMatch(patterns, output, offset).None? <==> NoneMatch(patterns, output, offset)
    ensures FirstMatch(patterns, output, offset).Some? && LongestFirst(patterns) ==>
              LongestMatch(patterns, output, offset, FirstMatch(patterns, output, offset).value)
  {
    forall q | q in patterns && MatchesAt(output, offset, q)
      ensures FirstMatch(patterns, output, offset).Some?
      ensures LongestFirst(patterns) ==> |q| <= |FirstMatch(patterns, output, offset).value|
    {
      FirstMatchIsLongest(patterns, output, offset, q);
    }
  }

  lemma {:induction false} SplitIsFaithful(patterns: seq<seq<Byte>>, output: seq<Byte>, offset: nat)
    requires offset <= |output| && LongestFirst(patterns)
    ensures Faithful(patterns, output, offset, SplitFrom(patterns, output, offset))
    decreases |output| - offset
  {
    if offset < |output| {
      FirstMatchDecides(patterns, output, offset);
      var first := FirstMatch(patterns, output, offset);
      SplitIsFaithful(patterns, output, offset + if first.Some? then |first.value| else 1);
    }
  }

  /** Put back together, the pieces are the output. */
  lemma {:induction false} SplitIsComplete(patterns: seq<seq<Byte>>, output: seq<Byte>, offset: nat)
    requires offset <= |output|
    ensures Original(SplitFrom(patterns, output, offset)) == output[offset..]
    decreases |output| - offset
  {
    if offset < |output| {
      var first := FirstMatch(patterns, output, offset);
      var next := offset + if first.Some? then |first.value| else 1;
      SplitIsComplete(patterns, output, next);
      assert output[offset..] == output[offset..next] + output[next..];
    }
  }

  lemma SameLongest(patterns: seq<seq<Byte>>, output: seq<Byte>, offset: nat, p: seq<Byte>, q: seq<Byte>)
    requires LongestMatch(patterns, output, offset, p) && LongestMatch(patterns, output, offset, q)
    ensures p == q
  {
  }

  lemma {:induction false} FaithfulHead(patterns: seq<seq<Byte>>, output: seq<Byte>, offset: nat, split: Split)
    requires offset <= |output| && LongestFirst(patterns) && Faithful(patterns, output, offset, split)
    ensures split.End? <==> offset == |output|
    ensures split.Copied? ==> split.byte == output[offset] && FirstMatch(patterns, output, offset).None?
    ensures split.Masked? ==> FirstMatch(patterns, output, offset) == Some(split.pattern)
  {
    FirstMatchDecides(patterns, output, offset);
    if split.Masked? {
      SameLongest(patterns, output, offset, split.pattern, FirstMatch(patterns, output, offset).value);
    }
  }

  /** Two patterns of one length that match at one place are the same bytes, so no other split is faithful. */
  lemma {:induction false} FaithfulIsUnique(patterns: seq<seq<Byte>>, output: seq<Byte>, offset: nat, split: Split)
    requires offset <= |output| && LongestFirst(patterns) && Faithful(patterns, output, offset, split)
    ensures split == SplitFrom(patterns, output, offset)
    decreases split
  {
    FaithfulHead(patterns, output, offset, split);
    if !split.End? {
      var next := offset + if split.Masked? then |split.pattern| else 1;
      FaithfulIsUnique(patterns, output, next, split.rest);
    }
  }

  /** A match that begins past the first part lies in the second. */
  lemma MatchInRest(a: seq<Byte>, b: seq<Byte>, r: nat, p: seq<Byte>)
    requires r >= |a|
    ensures MatchesAt(a + b, r, p) <==> MatchesAt(b, r - |a|, p)
  {
    assert r + |p| <= |a + b| ==> (a + b)[r..r + |p|] == b[r - |a|..r - |a| + |p|];
  }

  /** The text of the first piece. */
  function Piece(split: Split, marker: seq<Byte>): seq<Byte>
    requires !split.End?
  {
    if split.Masked? then marker else [split.byte]
  }

  // ----- What can still be seen -----

  /** Position `k` of the rendered text lies in a marker. */
  predicate InMarker(split: Split, marker: seq<Byte>, k: nat)
  {
    match split
    case End => false
    case Copied(_, rest) => k > 0 && InMarker(rest, marker, k - 1)
    case Masked(_, rest) => k < |marker| || InMarker(rest, marker, k - |marker|)
  }

  /** Up to the first marker the rendered text is the original text. */
  lemma {:induction false} CopiedRun(split: Split, marker: seq<Byte>, n: nat)
    requires n <= |Rendered(split, marker)| && marker != []
    requires forall k :: 0 <= k < n ==> !InMarker(split, marker, k)
    ensures n <= |Original(split)|
    ensures Rendered(split, marker)[..n] == Original(split)[..n]
    decreases n
  {
    if n > 0 {
      assert !InMarker(split, marker, 0);
      forall k | 0 <= k < n - 1
        ensures !InMarker(split.rest, marker, k)
      {
        assert !InMarker(split, marker, k + 1);
      }
      CopiedRun(split.rest, marker, n - 1);
    }
  }

  lemma {:induction false} CopiedMatch(patterns: seq<seq<Byte>>, output: seq<Byte>, marker: seq<Byte>, offset: nat, p: seq<Byte>)
    requires offset <= |output| && marker != []
    requires MatchesAt(Rendered(SplitFrom(patterns, output, offset), marker), 0, p)
    requires forall k :: 0 <= k < |p| ==> !InMarker(SplitFrom(patterns, output, offset), marker, k)
    ensures MatchesAt(output, offset, p)
  {
    var split := SplitFrom(patterns, output, offset);
    CopiedRun(split, marker, |p|);
    SplitIsComplete(patterns, output, offset);
    assert output[offset..offset + |p|] == output[offset..][..|p|];
    assert Rendered(split, marker)[0..0 + |p|] == Rendered(split, marker)[..|p|];
  }

  /** A pattern that begins at a copied byte meets a marker before it ends. */
  lemma {:induction false} LeakAtCopied(patterns: seq<seq<Byte>>, output: seq<Byte>, marker: seq<Byte>, offset: nat, p: seq<Byte>)
    requires offset < |output| && p in patterns && marker != []
    requires FirstMatch(patterns, output, offset).None?
    requires MatchesAt(Rendered(SplitFrom(patterns, output, offset), marker), 0, p)
    ensures exists k :: 0 <= k < |p| && InMarker(SplitFrom(patterns, output, offset), marker, k)
  {
    if forall k :: 0 <= k < |p| ==> !InMarker(SplitFrom(patterns, output, offset), marker, k) {
      FirstMatchDecides(patterns, output, offset);
      CopiedMatch(patterns, output, marker, offset, p);
    }
  }

  /** Any occurrence of a pattern in the result overlaps a marker: copied bytes alone never spell one. */
  lemma {:induction false} LeakTouchesMarker(patterns: seq<seq<Byte>>, output: seq<Byte>, marker: seq<Byte>,
                                             offset: nat, r: nat, p: seq<Byte>)
    requires offset <= |output| && p in patterns && marker != []
    requires MatchesAt(Rendered(SplitFrom(patterns, output, offset), marker), r, p)
    ensures exists k :: r <= k < r + |p| && InMarker(SplitFrom(patterns, output, offset), marker, k)
    decreases |output| - offset
  {
    var split := SplitFrom(patterns, output, offset);
    var width := |Piece(split, marker)|;
    if r >= width {
      var next := offset + if split.Masked? then |split.pattern| else 1;
      MatchInRest(Piece(split, marker), Rendered(split.rest, marker), r, p);
      LeakTouchesMarker(patterns, output, marker, next, r - width, p);
      var k :| r - width <= k < r - width + |p| && InMarker(split.rest, marker, k);
      assert InMarker(split, marker, k + width);
    } else if split.Masked? {
      assert InMarker(split, marker, r);
    } else {
      LeakAtCopied(patterns, output, marker, offset, p);
    }
  }

  /** Laid over the marker with shift `s`, the pattern disagrees with it somewhere they overlap. */
  predicate ClashesAt(p: seq<Byte>, marker: seq<Byte>, s: int)
  {
    exists k :: 0 <= k < |p| && 0 <= s + k < |marker| && p[k] != marker[s + k]
  }

  /** The pattern cannot be completed with bytes of a marker, whatever surrounds it. */
  predicate CannotOverlap(p: seq<Byte>, marker: seq<Byte>)
  {
    forall s :: -|p| < s < |marker| ==> ClashesAt(p, marker, s)
  }

  /** The marker that covers position `k` begins at some `m`, and all of it is in the text. */
  lemma {:induction false} MarkerAround(split: Split, marker: seq<Byte>, k: nat) returns (m: nat)
    requires k < |Rendered(split, marker)| && InMarker(split, marker, k)
    ensures m <= k < m + |marker|
    ensures MatchesAt(Rendered(split, marker), m, marker)
  {
    var width := if split.Masked? then |marker| else 1;
    if split.Masked? && k < |marker| {
      m := 0;
    } else {
      var inner := MarkerAround(split.rest, marker, k - width);
      m := inner + width;
      MatchInRest(Piece(split, marker), Rendered(split.rest, marker), m, marker);
    }
  }

  lemma OverlapAgrees(text: seq<Byte>, r: nat, p: seq<Byte>, m: nat, marker: seq<Byte>)
    requires MatchesAt(text, r, p) && MatchesAt(text, m, marker)
    ensures !ClashesAt(p, marker, r - m)
  {
  }

  lemma {:induction false} NoOverlapNoLeak(patterns: seq<seq<Byte>>, output: seq<Byte>, marker: seq<Byte>, r: nat, p: seq<Byte>)
    requires marker != [] && p in patterns && CannotOverlap(p, marker)
    ensures !MatchesAt(Rendered(SplitFrom(patterns, output, 0), marker), r, p)
  {
    var split := SplitFrom(patterns, output, 0);
    if MatchesAt(Rendered(split, marker), r, p) {
      LeakTouchesMarker(patterns, output, marker, 0, r, p);
      var k :| r <= k < r + |p| && InMarker(split, marker, k);
      var m := MarkerAround(split, marker, k);
      OverlapAgrees(Rendered(split, marker), r, p, m, marker);
    }
  }

  /** If an encoding cannot overlap the marker, it occurs nowhere in the result, joins included. */
  lemma NothingLeaks(output: seq<Byte>, secret: Secret, r: nat, p: seq<Byte>)
    requires secret.utf8 != [] && p in Patterns(secret) && CannotOverlap(p, MARKER)
    ensures !MatchesAt(Redact(output, secret), r, p)
  {
    NoOverlapNoLeak(Patterns(secret), output, MARKER, r, p);
  }

  /** Sharing no byte with the marker is enough. */
  lemma NoSharedByteCannotOverlap(p: seq<Byte>, marker: seq<Byte>)
    requires p != [] && marker != []
    requires forall b :: b in p ==> b !in marker
    ensures CannotOverlap(p, marker)
  {
    forall s | -|p| < s < |marker|
      ensures ClashesAt(p, marker, s)
    {
      var k := if s < 0 then -s else 0;
      assert p[k] in p && marker[s + k] in marker;
    }
  }

  /** A secret that is itself part of the marker stays visible in its own replacement. */
  lemma {:induction false} MarkerCanSpellTheSecret(patterns: seq<seq<Byte>>, secret: seq<Byte>, marker: seq<Byte>, at: nat)
    requires secret in patterns && LongestFirst(patterns) && MatchesAt(marker, at, secret)
    ensures MatchesAt(Rendered(SplitFrom(patterns, secret, 0), marker), at, secret)
  {
    assert MatchesAt(secret, 0, secret);
    FirstMatchIsLongest(patterns, secret, 0, secret);
    assert Rendered(SplitFrom(patterns, secret, 0), marker) == marker + [];
  }

  /** Output that is exactly one encoding of the secret becomes the marker and nothing else. */
  lemma WholeSecretBecomesMarker(secret: Secret, encoding: seq<Byte>)
    requires encoding == secret.utf8 || encoding == LittleEndian(secret.utf16)
    requires secret.utf8 != [] && encoding != []
    ensures Redact(encoding, secret) == "[REDACTED]"
  {
    PatternsAreLongestFirst(secret);
    assert MatchesAt(encoding, 0, encoding);
    FirstMatchIsLongest(Patterns(secret), encoding, 0, encoding);
    var patterns, n := Patterns(secret), |encoding|;
    assert FirstMatch(patterns, encoding, 0) == Some(encoding) by {
      var first := FirstMatch(patterns, encoding, 0).value;
      assert |first| == n && encoding[0..0 + n] == encoding;
    }
    assert SplitFrom(patterns, encoding, n) == End;
    assert Rendered(SplitFrom(patterns, encoding, 0), MARKER) == MARKER + Rendered(End, MARKER);
  }

  // ----- Nothing to hide, nothing changed -----

  lemma {:induction false} NoMatchCopies(patterns: seq<seq<Byte>>, output: seq<Byte>, marker: seq<Byte>, offset: nat)
    requires offset <= |output|
    requires forall o: nat :: NoneMatch(patterns, output, o)
    ensures Rendered(SplitFrom(patterns, output, offset), marker) == output[offset..]
    decreases |output| - offset
  {
    if offset < |output| {
      FirstMatchDecides(patterns, output, offset);
      NoMatchCopies(patterns, output, marker, offset + 1);
    }
  }

  /** Output in which the secret does not occur is passed through unchanged. */
  lemma CleanOutputIsUnchanged(output: seq<Byte>, secret: Secret)
    requires forall o: nat :: NoneMatch(Patterns(secret), output, o)
    ensures Redact(output, secret) == output
  {
    NoMatchCopies(Patterns(secret), output, MARKER, 0);
  }

  /** Position `i` of the original lies in a replaced occurrence. */
  predicate Replaced(split: Split, i: nat)
  {
    match split
    case End => false
    case Copied(_, rest) => i > 0 && Replaced(rest, i - 1)
    case Masked(p, rest) => i < |p| || Replaced(rest, i - |p|)
  }

  /** No occurrence in the original survives whole: at least one of its bytes is replaced. */
  lemma {:induction false} EveryOccurrenceIsBroken(patterns: seq<seq<Byte>>, output: seq<Byte>, offset: nat,
                                                   d: nat, p: seq<Byte>)
    requires p in patterns && MatchesAt(output, offset + d, p)
    ensures exists i :: d <= i < d + |p| && Replaced(SplitFrom(patterns, output, offset), i)
    decreases d
  {
    var split := SplitFrom(patterns, output, offset);
    FirstMatchDecides(patterns, output, offset);
    var width := if split.Masked? then |split.pattern| else 1;
    if d < width {
      assert Replaced(split, d);
    } else {
      EveryOccurrenceIsBroken(patterns, output, offset + width, d - width, p);
      var i :| d - width <= i < d - width + |p| && Replaced(split.rest, i);
      assert Replaced(split, i + width);
    }
  }
}
