/**
 When can a secret still be seen after redaction?

 Copied bytes alone never spell a pattern, so whatever remains visible is
 completed by a marker.  This module decides, from the patterns and the marker
 alone, whether any output at all can show a pattern.
 */
module RedactionLeaks {
  import opened Wrappers
  import opened Texts
  import opened Redaction

  type Bytes = seq<Byte>

  // ----- The condition -----

  /** The bytes of the pattern before the marker, when the pattern lies over it with shift `s`. */
  function Head(p: Bytes, s: int): Bytes
    requires -|p| < s
  {
    if s < 0 then p[..-s] else []
  }

  /** The bytes of the pattern after the marker. */
  function Tail(p: Bytes, marker: Bytes, s: int): Bytes
    requires s < |marker|
  {
    if |marker| - s < |p| then p[|marker| - s..] else []
  }

  /** In `head + w + tail` the head is copied, `w` is masked and the tail is copied. */
  ghost predicate SplitsAs(patterns: seq<Bytes>, head: Bytes, w: Bytes, tail: Bytes)
  {
    var text := head + w + tail;
    && (forall j {:trigger NoneMatch(patterns, text, j)} :: 0 <= j < |head| ==> NoneMatch(patterns, text, j))
    && LongestMatch(patterns, text, |head|, w)
    && (forall j {:trigger NoneMatch(patterns, text, j)} :: |head| + |w| <= j < |text| ==> NoneMatch(patterns, text, j))
  }

  /**
   Laid over the marker with shift `s` the pattern agrees with it, and what the
   pattern has before and after the marker can stand around an occurrence of
   `w` without being masked itself.
   */
  ghost predicate Exposes(patterns: seq<Bytes>, marker: Bytes, p: Bytes, w: Bytes, s: int)
  {
    && p != [] && -|p| < s < |marker| && !ClashesAt(p, marker, s)
    && SplitsAs(patterns, Head(p, s), w, Tail(p, marker, s))
  }

  ghost predicate CanShow(patterns: seq<Bytes>, marker: Bytes)
  {
    exists p, w, s :: p in patterns && w in patterns && Exposes(patterns, marker, p, w, s)
  }

  predicate Shows(patterns: seq<Bytes>, marker: Bytes, output: Bytes, r: nat, p: Bytes)
  {
    MatchesAt(Rendered(SplitFrom(patterns, output, 0), marker), r, p)
  }

  /** Some output shows the pattern after redaction. */
  ghost predicate Visible(patterns: seq<Bytes>, marker: Bytes, p: Bytes)
  {
    exists output, r: nat :: Shows(patterns, marker, output, r, p)
  }

  // ----- The condition is sufficient -----

  lemma {:induction false} CopyRun(patterns: seq<Bytes>, marker: Bytes, output: Bytes, offset: nat, n: nat)
    requires offset + n <= |output|
    requires forall j {:trigger NoneMatch(patterns, output, j)} :: offset <= j < offset + n ==> NoneMatch(patterns, output, j)
    ensures Rendered(SplitFrom(patterns, output, offset), marker)
         == output[offset..offset + n] + Rendered(SplitFrom(patterns, output, offset + n), marker)
    decreases n
  {
    if n > 0 {
      assert NoneMatch(patterns, output, offset);
      FirstMatchDecides(patterns, output, offset);
      CopyRun(patterns, marker, output, offset + 1, n - 1);
    }
  }

  lemma {:induction false} LongestIsFirst(patterns: seq<Bytes>, text: Bytes, i: nat, w: Bytes)
    requires LongestFirst(patterns) && LongestMatch(patterns, text, i, w)
    ensures FirstMatch(patterns, text, i) == Some(w)
  {
    FirstMatchDecides(patterns, text, i);
    SameLongest(patterns, text, i, w, FirstMatch(patterns, text, i).value);
  }

  lemma {:induction false} CopyToEnd(patterns: seq<Bytes>, marker: Bytes, text: Bytes, i: nat)
    requires i <= |text|
    requires forall j {:trigger NoneMatch(patterns, text, j)} :: i <= j < |text| ==> NoneMatch(patterns, text, j)
    ensures Rendered(SplitFrom(patterns, text, i), marker) == text[i..]
  {
    CopyRun(patterns, marker, text, i, |text| - i);
    assert Rendered(SplitFrom(patterns, text, |text|), marker) == [];
    assert text[i..] == text[i..|text|] + [];
  }

  lemma {:induction false} MaskThenCopy(patterns: seq<Bytes>, marker: Bytes, text: Bytes, i: nat, w: Bytes)
    requires FirstMatch(patterns, text, i) == Some(w)
    requires forall j {:trigger NoneMatch(patterns, text, j)} :: i + |w| <= j < |text| ==> NoneMatch(patterns, text, j)
    ensures Rendered(SplitFrom(patterns, text, i), marker) == marker + text[i + |w|..]
  {
    CopyToEnd(patterns, marker, text, i + |w|);
  }

  lemma {:induction false} RenderedAs(patterns: seq<Bytes>, marker: Bytes, head: Bytes, w: Bytes, tail: Bytes)
    requires LongestFirst(patterns) && SplitsAs(patterns, head, w, tail)
    ensures Rendered(SplitFrom(patterns, head + w + tail, 0), marker) == head + marker + tail
  {
    var text, i := head + w + tail, |head|;
    assert text[0..0 + i] == head && text[i + |w|..] == tail;
    LongestIsFirst(patterns, text, i, w);
    MaskThenCopy(patterns, marker, text, i, w);
    var rest := Rendered(SplitFrom(patterns, text, i), marker);
    assert rest == marker + tail;
    CopyRun(patterns, marker, text, 0, i);
    assert head + rest == head + marker + tail;
  }

  lemma PatternOverMarker(p: Bytes, marker: Bytes, s: int)
    requires -|p| < s < |marker| && !ClashesAt(p, marker, s)
    ensures OccursAt(Head(p, s) + marker + Tail(p, marker, s), p, if s < 0 then 0 else s)
  {
    var text, r := Head(p, s) + marker + Tail(p, marker, s), if s < 0 then 0 else s;
    assert |text| >= r + |p|;
    forall k | 0 <= k < |p|
      ensures text[r + k] == p[k]
    {
      if 0 <= s + k < |marker| {
        assert p[k] == marker[s + k];
      }
    }
  }

  lemma ExposedIsVisible(patterns: seq<Bytes>, marker: Bytes, p: Bytes, w: Bytes, s: int)
    requires LongestFirst(patterns) && Exposes(patterns, marker, p, w, s)
    ensures Visible(patterns, marker, p)
  {
    var head, tail := Head(p, s), Tail(p, marker, s);
    RenderedAs(patterns, marker, head, w, tail);
    PatternOverMarker(p, marker, s);
    assert Shows(patterns, marker, head + w + tail, if s < 0 then 0 else s, p);
  }

  // ----- What a visible pattern looks like -----

  /** The bytes at `x` are copied up to `n` of them, and agree with `t`. */
  ghost predicate CopiedAs(patterns: seq<Bytes>, output: Bytes, x: nat, t: Bytes, n: nat)
  {
    && n <= |t| && x + n <= |output| && output[x..x + n] == t[..n]
    && forall k {:trigger NoneMatch(patterns, output, k)} :: x <= k < x + n ==> NoneMatch(patterns, output, k)
  }

  /** From `x` on, `n` bytes are copied and then the output ends or a pattern begins. */
  lemma {:induction false} RunEnds(patterns: seq<Bytes>, output: Bytes, x: nat) returns (n: nat)
    requires x <= |output|
    ensures x + n <= |output|
    ensures forall k {:trigger NoneMatch(patterns, output, k)} :: x <= k < x + n ==> NoneMatch(patterns, output, k)
    ensures x + n < |output| ==> FirstMatch(patterns, output, x + n).Some?
    decreases |output| - x
  {
    n := 0;
    if x < |output| && FirstMatch(patterns, output, x).None? {
      FirstMatchDecides(patterns, output, x);
      var more := RunEnds(patterns, output, x + 1);
      n := more + 1;
    }
  }

  lemma AgreesPastRun(t: Bytes, run: Bytes, marker: Bytes, rest: Bytes, s: int)
    requires t <= run + (marker + rest) && s == -|run|
    ensures !ClashesAt(t, marker, s)
  {
    forall k | 0 <= k < |t| && 0 <= s + k < |marker|
      ensures t[k] == marker[s + k]
    {
      assert (run + (marker + rest))[k] == t[k];
    }
  }

  lemma PrefixOfRun(t: Bytes, run: Bytes, rest: Bytes, n: nat)
    requires t <= run + rest && n <= |t| && n <= |run|
    ensures run[..n] == t[..n]
  {
    assert (run + rest)[..n] == run[..n];
  }

  /** A text that the result begins with is copied up to its first marker, where the shift is `s`. */
  lemma UpToMarker(patterns: seq<Bytes>, marker: Bytes, output: Bytes, x: nat, t: Bytes)
    returns (s: int)
    requires x <= |output| && t <= Rendered(SplitFrom(patterns, output, x), marker)
    ensures s <= 0 && CopiedAs(patterns, output, x, t, -s)
    ensures -|t| < s ==> FirstMatch(patterns, output, x - s).Some? && !ClashesAt(t, marker, s)
  {
    var n := RunEnds(patterns, output, x);
    CopyRun(patterns, marker, output, x, n);
    var run, next := output[x..x + n], SplitFrom(patterns, output, x + n);
    var m := if |t| <= n then |t| else n;
    PrefixOfRun(t, run, Rendered(next, marker), m);
    assert run[..m] == output[x..x + m];
    s := -m;
    if n < |t| {
      AgreesPastRun(t, run, marker, Rendered(next.rest, marker), s);
    }
  }

  /** How a visible pattern lies over the first marker it meets. */
  ghost predicate Lies(patterns: seq<Bytes>, marker: Bytes, output: Bytes, p: Bytes, s: int, x: nat, w: Bytes)
  {
    && -|p| < s < |marker| && !ClashesAt(p, marker, s)
    && (s < 0 ==> CopiedAs(patterns, output, x, p, -s) && FirstMatch(patterns, output, x - s) == Some(w))
  }

  lemma LiesAtCopied(patterns: seq<Bytes>, marker: Bytes, output: Bytes, x: nat, p: Bytes) returns (s: int, w: Bytes)
    requires x < |output| && p in patterns && FirstMatch(patterns, output, x).None?
    requires MatchesAt(Rendered(SplitFrom(patterns, output, x), marker), 0, p)
    ensures s < 0 && Lies(patterns, marker, output, p, s, x, w)
  {
    s := UpToMarker(patterns, marker, output, x, p);
    FirstMatchDecides(patterns, output, x);
    assert s == -|p| ==> MatchesAt(output, x, p);
    w := FirstMatch(patterns, output, x - s).value;
  }

  lemma {:induction false} VisibleLies(patterns: seq<Bytes>, marker: Bytes, output: Bytes, offset: nat, r: nat, p: Bytes)
    returns (s: int, x: nat, w: Bytes)
    requires offset <= |output| && p in patterns && marker != []
    requires MatchesAt(Rendered(SplitFrom(patterns, output, offset), marker), r, p)
    ensures Lies(patterns, marker, output, p, s, x, w)
    decreases |output| - offset
  {
    var split := SplitFrom(patterns, output, offset);
    var width := |Piece(split, marker)|;
    if r >= width {
      var next := offset + if split.Masked? then |split.pattern| else 1;
      MatchInRest(Piece(split, marker), Rendered(split.rest, marker), r, p);
      s, x, w := VisibleLies(patterns, marker, output, next, r - width, p);
    } else if split.Masked? {
      s, x, w := r, 0, [];
      MatchAtFront(marker, Rendered(split.rest, marker));
      OverlapAgrees(Rendered(split, marker), r, p, 0, marker);
    } else {
      s, w := LiesAtCopied(patterns, marker, output, offset, p);
      x := offset;
    }
  }

  lemma MatchAtFront(a: Bytes, b: Bytes)
    requires a != []
    ensures MatchesAt(a + b, 0, a)
  {
  }

  // ----- Surroundings that are not masked -----

  /** No listed pattern lies inside this one, other than one of its own length. */
  ghost predicate Primary(patterns: seq<Bytes>, p: Bytes)
  {
    forall q, j: nat {:trigger MatchesAt(p, j, q)} :: q in patterns && MatchesAt(p, j, q) ==> |q| >= |p|
  }

  lemma MatchBytes(text: Bytes, j: nat, q: Bytes)
    ensures MatchesAt(text, j, q)
       <==> q != [] && j + |q| <= |text| && forall k :: 0 <= k < |q| ==> text[j + k] == q[k]
  {
    if MatchesAt(text, j, q) {
      forall k | 0 <= k < |q|
        ensures text[j + k] == q[k]
      {
        assert text[j..j + |q|][k] == text[j + k];
      }
    }
  }

  lemma MatchInPart(text: Bytes, x: nat, y: nat, j: nat, q: Bytes)
    requires x <= y <= |text| && MatchesAt(text[x..y], j, q)
    ensures MatchesAt(text, x + j, q)
  {
    MatchBytes(text[x..y], j, q);
    MatchBytes(text, x + j, q);
  }

  lemma MatchInFront(a: Bytes, b: Bytes, j: nat, q: Bytes)
    requires MatchesAt(a + b, j, q) && j + |q| <= |a|
    ensures MatchesAt(a, j, q)
  {
    MatchBytes(a + b, j, q);
    MatchBytes(a, j, q);
  }

  /** Nothing is masked in the tail, which is a shorter part of the pattern. */
  lemma TailIsClean(patterns: seq<Bytes>, front: Bytes, p: Bytes, k: nat)
    requires Primary(patterns, p) && 0 < k <= |p|
    ensures forall j: nat {:trigger NoneMatch(patterns, front + p[k..], j)} ::
              |front| <= j ==> NoneMatch(patterns, front + p[k..], j)
  {
    forall j: nat, q | |front| <= j && q in patterns && MatchesAt(front + p[k..], j, q)
      ensures false
    {
      MatchInRest(front, p[k..], j, q);
      assert p[k..] == p[k..|p|];
      MatchInPart(p, k, |p|, j - |front|, q);
    }
  }

  lemma TailOfPattern(patterns: seq<Bytes>, marker: Bytes, p: Bytes, s: int, front: Bytes)
    requires Primary(patterns, p) && p != [] && s < |marker|
    ensures forall j: nat {:trigger NoneMatch(patterns, front + Tail(p, marker, s), j)} ::
              |front| <= j ==> NoneMatch(patterns, front + Tail(p, marker, s), j)
  {
    var k := if |marker| - s < |p| then |marker| - s else |p|;
    assert Tail(p, marker, s) == p[k..];
    TailIsClean(patterns, front, p, k);
  }

  /** A pattern that can begin inside the marker needs nothing before it: the longest pattern reveals it. */
  lemma ExposedAtStart(patterns: seq<Bytes>, marker: Bytes, p: Bytes, s: int)
    requires LongestFirst(patterns) && p in patterns && p != [] && Primary(patterns, p)
    requires 0 <= s < |marker| && !ClashesAt(p, marker, s)
    ensures CanShow(patterns, marker)
  {
    var w, tail := patterns[0], Tail(p, marker, s);
    TailOfPattern(patterns, marker, p, s, [] + w);
    MatchAtFront(w, tail);
    assert [] + w + tail == w + tail;
    assert w in patterns && Exposes(patterns, marker, p, w, s);
  }

  /** If the surroundings are disturbed, a pattern begins in the head, or a longer one at its end. */
  lemma Disturbed(patterns: seq<Bytes>, head: Bytes, w: Bytes, tail: Bytes) returns (j: nat, q: Bytes)
    requires w in patterns && w != [] && !SplitsAs(patterns, head, w, tail)
    requires forall j: nat {:trigger NoneMatch(patterns, head + w + tail, j)} ::
               |head + w| <= j ==> NoneMatch(patterns, head + w + tail, j)
    ensures q in patterns && MatchesAt(head + w + tail, j, q)
    ensures j <= |head| && (j == |head| ==> |q| > |w|)
  {
    var text := head + w + tail;
    MatchBytes(text, |head|, w);
    if i: nat :| i < |head| && !NoneMatch(patterns, text, i) {
      j := i;
      q :| q in patterns && MatchesAt(text, j, q);
    } else {
      j := |head|;
      q :| q in patterns && MatchesAt(text, j, q) && |q| > |w|;
    }
  }

  /** Where the output has the head and then `w`, nothing disturbs them that ends with them. */
  lemma OutputIsUndisturbed(patterns: seq<Bytes>, marker: Bytes, output: Bytes, p: Bytes, s: int, x: nat, w: Bytes,
                            tail: Bytes, j: nat, q: Bytes)
    requires s < 0 && Lies(patterns, marker, output, p, s, x, w) && q in patterns
    requires j < -s && j + |q| <= |Head(p, s) + w|
    ensures !MatchesAt(Head(p, s) + w + tail, j, q)
  {
    var front, y := Head(p, s) + w, x - s + |w|;
    assert output[x..y] == output[x..x - s] + output[x - s..y];
    assert output[x..y] == front;
    if MatchesAt(front + tail, j, q) {
      assert NoneMatch(patterns, output, x + j);
      MatchInFront(front, tail, j, q);
      MatchInPart(output, x, y, j, q);
    }
  }

  /** Masked as the longest pattern, the head stands before it in any text. */
  lemma ExposedByLongest(patterns: seq<Bytes>, marker: Bytes, output: Bytes, p: Bytes, s: int, x: nat, w: Bytes)
    requires p in patterns && p != [] && Primary(patterns, p)
    requires s < 0 && Lies(patterns, marker, output, p, s, x, w)
    requires forall q :: q in patterns ==> |q| <= |w|
    ensures CanShow(patterns, marker)
  {
    var head, tail := Head(p, s), Tail(p, marker, s);
    if !SplitsAs(patterns, head, w, tail) {
      TailOfPattern(patterns, marker, p, s, head + w);
      var j, q := Disturbed(patterns, head, w, tail);
      OutputIsUndisturbed(patterns, marker, output, p, s, x, w, tail, j, q);
    }
    assert Exposes(patterns, marker, p, w, s);
  }

  // ----- The remaining case: the shorter pattern, masked as itself, inside the longer one -----

  ghost predicate Period(c: Bytes, d: nat) { forall k :: 0 <= k < |c| - d ==> c[k] == c[d + k] }

  /** `n` is the first place where the whole marker lies in `c`. */
  ghost predicate FirstMarker(c: Bytes, marker: Bytes, n: nat)
  {
    MatchesAt(c, n, marker) && NotBefore(c, marker, n)
  }

  lemma {:induction false} FirstMarkerExists(c: Bytes, marker: Bytes, m: nat) returns (n: nat)
    requires MatchesAt(c, m, marker)
    ensures n <= m && FirstMarker(c, marker, n)
  {
    if k: nat :| k < m && MatchesAt(c, k, marker) {
      n := FirstMarkerExists(c, marker, k);
    } else {
      n := m;
    }
  }

  /** No part of `c` that begins inside the marker agrees with it. */
  ghost predicate NeverStartsInside(c: Bytes, marker: Bytes)
  {
    forall s {:trigger ClashesAt(c, marker, s)} :: 0 <= s < |marker| ==> ClashesAt(c, marker, s)
  }

  lemma AgreesAfterPeriod(c: Bytes, marker: Bytes, n: nat, d: nat)
    requires MatchesAt(c, n, marker) && Period(c, d) && n <= d
    ensures !ClashesAt(c, marker, d - n)
  {
    MatchBytes(c, n, marker);
    forall k | 0 <= k < |c| && 0 <= d - n + k < |marker|
      ensures c[k] == marker[d - n + k]
    {
      assert c[n + (d - n + k)] == marker[d - n + k];
    }
  }

  /** Shifted by a period, the first marker would come earlier or be begun by `c` itself. */
  lemma PeriodIsLong(c: Bytes, marker: Bytes, n: nat, d: nat)
    requires FirstMarker(c, marker, n) && NeverStartsInside(c, marker) && 0 < d && Period(c, d)
    ensures d >= n + |marker|
  {
    MatchBytes(c, n, marker);
    if d <= n {
      MatchBytes(c, n - d, marker);
    } else {
      AgreesAfterPeriod(c, marker, n, d);
    }
  }

  lemma OverlapIsPeriod(text: Bytes, i: nat, j: nat, c: Bytes)
    requires i <= j && MatchesAt(text, i, c) && MatchesAt(text, j, c)
    ensures Period(c, j - i)
  {
    MatchBytes(text, i, c);
    MatchBytes(text, j, c);
    forall k | 0 <= k < |c| - (j - i)
      ensures c[k] == c[j - i + k]
    {
      assert text[j + k] == c[k] && text[i + (j - i + k)] == c[j - i + k];
    }
  }

  /** The longer pattern ends a head of `c` before its marker at `m`, then holds `c`; no `c` begins in that head. */
  ghost predicate Continues(l: Bytes, c: Bytes, marker: Bytes, m: nat, b: nat)
  {
    && MatchesAt(c, m, marker) && b <= m
    && MatchesAt(l, b, c) && l[..b] == c[m - b..m]
    && NotBefore(c[..m] + c, c, m)
  }

  ghost predicate NotBefore(text: Bytes, c: Bytes, m: nat)
  {
    forall k: nat {:trigger MatchesAt(text, k, c)} :: k < m ==> !MatchesAt(text, k, c)
  }

  /** A match inside a match is a match. */
  lemma MatchInMatch(text: Bytes, j: nat, l: Bytes, b: nat, c: Bytes)
    requires MatchesAt(text, j, l) && MatchesAt(l, b, c)
    ensures MatchesAt(text, j + b, c)
  {
    MatchBytes(text, j, l);
    MatchBytes(l, b, c);
    MatchBytes(text, j + b, c);
  }

  lemma MatchOfMiddle(a: Bytes, w: Bytes, b: Bytes)
    requires w != []
    ensures MatchesAt(a + w + b, |a|, w)
  {
    MatchBytes(a + w + b, |a|, w);
  }

  /** The longer pattern cannot hold `c` earlier than it does, or `c` would begin in the head. */
  lemma HeldNoEarlier(l: Bytes, c: Bytes, marker: Bytes, m: nat, b: nat, a: nat)
    requires Continues(l, c, marker, m, b) && a < b
    ensures !MatchesAt(l, a, c)
  {
    var text, i := c[..m] + c, m - b + a;
    forall k | 0 <= k < b + |c|
      ensures text[m - b + k] == l[k]
    {
      MatchBytes(l, b, c);
      if k < b { assert l[..b][k] == c[m - b..m][k]; } else { assert l[b + (k - b)] == c[k - b]; }
    }
    assert !MatchesAt(text, i, c);
    MatchBytes(l, a, c);
    MatchBytes(text, i, c);
  }

  /** Around `c` itself only the longer pattern can disturb, and only at one place. */
  lemma DisturbedAroundShort(l: Bytes, c: Bytes, marker: Bytes, m: nat, b: nat, n: nat, tail: Bytes, j: nat, q: Bytes)
    requires Continues(l, c, marker, m, b) && FirstMarker(c, marker, n) && NeverStartsInside(c, marker)
    requires q in [l, c] && MatchesAt(c[..n] + c + tail, j, q) && j <= n && (j == n ==> |q| > |c|)
    ensures q == l && j + b == n
  {
    var text := c[..n] + c + tail;
    MatchOfMiddle(c[..n], c, tail);
    if q == c {
      OverlapIsPeriod(text, j, n, c);
      PeriodIsLong(c, marker, n, n - j);
    } else {
      MatchInMatch(text, j, l, b, c);
      if j + b < n {
        OverlapIsPeriod(text, j + b, n, c);
        PeriodIsLong(c, marker, n, n - j - b);
      } else if j + b > n {
        MatchBytes(text, j, l);
        MatchBytes(text, n, c);
        MatchBytes(l, b, c);
        MatchBytes(l, n - j, c);
        HeldNoEarlier(l, c, marker, m, b, n - j);
      }
    }
  }

  /** Within the longer pattern, `c` over the first marker would put that marker earlier. */
  lemma ShortDoesNotDisturbLong(l: Bytes, c: Bytes, marker: Bytes, b: nat, n: nat, tail: Bytes, j: nat)
    requires MatchesAt(l, b, c) && b <= n <= |c| && l[..b] == c[n - b..n]
    requires FirstMarker(c, marker, n) && NeverStartsInside(c, marker) && j < n
    ensures !MatchesAt(c[..n] + l + tail, j, c)
  {
    var text := c[..n] + l + tail;
    MatchBytes(text, j, c);
    if MatchesAt(text, j, c) {
      MatchOfMiddle(c[..n], l, tail);
      MatchInMatch(text, n, l, b, c);
      OverlapIsPeriod(text, j, n + b, c);
      PeriodIsLong(c, marker, n, n + b - j);
      MarkerMovesBack(l, c, marker, b, n, tail, j);
    }
  }

  lemma MarkerMovesBack(l: Bytes, c: Bytes, marker: Bytes, b: nat, n: nat, tail: Bytes, j: nat)
    requires b <= n <= |c| && b <= |l| && l[..b] == c[n - b..n] && j < n
    requires MatchesAt(c, n, marker) && MatchesAt(c[..n] + l + tail, j, c) && n + |marker| <= n + b - j
    ensures n - b + j < n && MatchesAt(c, n - b + j, marker)
  {
    var text := c[..n] + l + tail;
    MatchBytes(text, j, c);
    MatchBytes(c, n, marker);
    forall i | 0 <= i < |marker|
      ensures c[n - b + j + i] == marker[i]
    {
      assert c[n + i] == text[j + n + i] == l[j + i];
      assert l[..b][j + i] == c[n - b..n][j + i];
    }
    MatchBytes(c, n - b + j, marker);
  }

  lemma LongIsUndisturbed(l: Bytes, c: Bytes, marker: Bytes, b: nat, n: nat, tail: Bytes, j: nat, q: Bytes)
    requires MatchesAt(l, b, c) && b <= n <= |c| && l[..b] == c[n - b..n]
    requires FirstMarker(c, marker, n) && NeverStartsInside(c, marker) && j < n && q in [l, c]
    ensures !MatchesAt(c[..n] + l + tail, j, q)
  {
    var text := c[..n] + l + tail;
    ShortDoesNotDisturbLong(l, c, marker, b, n, tail, j);
    if q == l && MatchesAt(text, j, l) {
      MatchOfMiddle(c[..n], l, tail);
      MatchInMatch(text, n, l, b, c);
      MatchInMatch(text, j, l, b, c);
      OverlapIsPeriod(text, j + b, n + b, c);
      PeriodIsLong(c, marker, n, n - j);
    }
  }

  /** At its first marker the shorter pattern is exposed, masked as one of the two. */
  lemma ShortIsExposed(l: Bytes, c: Bytes, marker: Bytes, m: nat, b: nat)
    requires |l| > |c| && Continues(l, c, marker, m, b) && NeverStartsInside(c, marker)
    ensures CanShow([l, c], marker)
  {
    var patterns := [l, c];
    var n := FirstMarkerExists(c, marker, m);
    var s := -(n as int);
    MatchBytes(c, n, marker);
    AgreesAtMatch(c, marker, n);
    var head, tail := Head(c, s), Tail(c, marker, s);
    assert head == c[..n];
    if !SplitsAs(patterns, head, c, tail) {
      TailOfPattern(patterns, marker, c, s, head + c);
      var j, q := Disturbed(patterns, head, c, tail);
      DisturbedAroundShort(l, c, marker, m, b, n, tail, j, q);
      StartOfLong(l, c, b, n, tail, j);
      if !SplitsAs(patterns, head, l, tail) {
        TailOfPattern(patterns, marker, c, s, head + l);
        var i, d := Disturbed(patterns, head, l, tail);
        LongIsUndisturbed(l, c, marker, b, n, tail, i, d);
      }
      assert Exposes(patterns, marker, c, l, s);
    } else {
      assert Exposes(patterns, marker, c, c, s);
    }
  }

  lemma AgreesAtMatch(c: Bytes, marker: Bytes, n: nat)
    requires MatchesAt(c, n, marker)
    ensures !ClashesAt(c, marker, -(n as int))
  {
    MatchBytes(c, n, marker);
    forall k | 0 <= k < |c| && 0 <= k - n < |marker|
      ensures c[k] == marker[k - n]
    {
      assert c[n + (k - n)] == marker[k - n];
    }
  }

  lemma StartOfLong(l: Bytes, c: Bytes, b: nat, n: nat, tail: Bytes, j: nat)
    requires n <= |c| && MatchesAt(c[..n] + c + tail, j, l) && j + b == n
    ensures b <= |l| ==> l[..b] == c[n - b..n]
  {
    MatchBytes(c[..n] + c + tail, j, l);
  }

  /** When the shorter pattern's own surroundings are disturbed, the longer one holds it past the mask. */
  lemma LongHoldsShort(l: Bytes, c: Bytes, head: Bytes, tail: Bytes, j: nat)
    requires MatchesAt(head + c + tail, j, l) && j <= |head| && j + |l| > |head| + |c| && c != []
    ensures MatchesAt(l, |head| - j, c) && l[..|head| - j] == head[j..]
    ensures tail != []
  {
    var text := head + c + tail;
    MatchBytes(text, j, l);
    MatchBytes(l, |head| - j, c);
  }

  lemma WholeMarker(c: Bytes, marker: Bytes, s: int)
    requires s < 0 && !ClashesAt(c, marker, s) && marker != [] && |marker| - s <= |c|
    ensures MatchesAt(c, -s, marker)
  {
    MatchBytes(c, -s, marker);
    forall k | 0 <= k < |marker|
      ensures c[-s + k] == marker[k]
    {
      assert 0 <= s + (-s + k) < |marker|;
    }
  }

  /** A disturbed mask of the shorter pattern: the longer one holds it and runs on past the mask. */
  lemma HeldPastMask(l: Bytes, c: Bytes, marker: Bytes, output: Bytes, p: Bytes, s: int, x: nat) returns (b: nat)
    requires |l| > |c| && p in [l, c] && p != [] && Primary([l, c], p)
    requires s < 0 && Lies([l, c], marker, output, p, s, x, c)
    requires !SplitsAs([l, c], Head(p, s), c, Tail(p, marker, s))
    ensures b <= -s && MatchesAt(l, b, c) && l[..b] == p[-s - b..-s]
    ensures Tail(p, marker, s) != []
  {
    var patterns, head, tail := [l, c], Head(p, s), Tail(p, marker, s);
    TailOfPattern(patterns, marker, p, s, head + c);
    var j, q := Disturbed(patterns, head, c, tail);
    if j < -s && j + |q| <= |head + c| {
      OutputIsUndisturbed(patterns, marker, output, p, s, x, c, tail, j, q);
    }
    LongHoldsShort(l, c, head, tail, j);
    b := -s - j;
    assert head[j..] == p[j..-s];
  }

  lemma NoneInHead(patterns: seq<Bytes>, marker: Bytes, output: Bytes, c: Bytes, s: int, x: nat)
    requires s < 0 && Lies(patterns, marker, output, c, s, x, c) && c in patterns
    ensures NotBefore(c[..-s] + c, c, -s)
  {
    var text := c[..-s] + c;
    assert text == Head(c, s) + c + [];
    forall k: nat | k < -s
      ensures !MatchesAt(text, k, c)
    {
      OutputIsUndisturbed(patterns, marker, output, c, s, x, c, [], k, c);
    }
  }

  lemma ExposedByShort(l: Bytes, c: Bytes, marker: Bytes, output: Bytes, p: Bytes, s: int, x: nat)
    requires |l| > |c| && marker != [] && p in [l, c] && p != [] && Primary([l, c], p)
    requires s < 0 && Lies([l, c], marker, output, p, s, x, c) && NeverStartsInside(p, marker)
    ensures CanShow([l, c], marker)
  {
    if SplitsAs([l, c], Head(p, s), c, Tail(p, marker, s)) {
      assert c in [l, c] && Exposes([l, c], marker, p, c, s);
    } else {
      var b := HeldPastMask(l, c, marker, output, p, s, x);
      assert p == c;
      WholeMarker(c, marker, s);
      NoneInHead([l, c], marker, output, c, s, x);
      ShortIsExposed(l, c, marker, -s, b);
    }
  }

  // ----- The main result -----

  /** A visible pattern that holds no shorter one meets the condition. */
  lemma VisibleIsExposed(l: Bytes, c: Bytes, marker: Bytes, p: Bytes)
    requires |l| >= |c| && marker != [] && p in [l, c] && Primary([l, c], p) && Visible([l, c], marker, p)
    ensures CanShow([l, c], marker)
  {
    var patterns := [l, c];
    var output, r: nat :| Shows(patterns, marker, output, r, p);
    var s, x, w := VisibleLies(patterns, marker, output, 0, r, p);
    if i :| 0 <= i < |marker| && !ClashesAt(p, marker, i) {
      ExposedAtStart(patterns, marker, p, i);
    } else if |w| == |l| {
      ExposedByLongest(patterns, marker, output, p, s, x, w);
    } else {
      ExposedByShort(l, c, marker, output, p, s, x);
    }
  }

  /** Whatever lies inside a visible pattern is visible. */
  lemma VisibleInside(patterns: seq<Bytes>, marker: Bytes, p: Bytes, j: nat, q: Bytes)
    requires Visible(patterns, marker, p) && MatchesAt(p, j, q)
    ensures Visible(patterns, marker, q)
  {
    var output, r: nat :| Shows(patterns, marker, output, r, p);
    MatchInMatch(Rendered(SplitFrom(patterns, output, 0), marker), r, p, j, q);
    assert Shows(patterns, marker, output, r + j, q);
  }

  lemma LongIsPrimary(l: Bytes, c: Bytes, marker: Bytes)
    requires Visible([l, c], marker, l) && !Visible([l, c], marker, c)
    ensures Primary([l, c], l)
  {
    forall q, j: nat | q in [l, c] && MatchesAt(l, j, q)
      ensures |q| >= |l|
    {
      if q == c { VisibleInside([l, c], marker, l, j, c); }
    }
  }

  /** For two patterns, some output shows one of them exactly when the condition holds. */
  lemma VisibleIff(l: Bytes, c: Bytes, marker: Bytes)
    requires |l| >= |c| && marker != []
    ensures Visible([l, c], marker, l) || Visible([l, c], marker, c) <==> CanShow([l, c], marker)
  {
    var patterns := [l, c];
    if CanShow(patterns, marker) {
      var p, w, s :| p in patterns && w in patterns && Exposes(patterns, marker, p, w, s);
      ExposedIsVisible(patterns, marker, p, w, s);
    }
    if Visible(patterns, marker, c) {
      VisibleIsExposed(l, c, marker, c);
    } else if Visible(patterns, marker, l) {
      LongIsPrimary(l, c, marker);
      VisibleIsExposed(l, c, marker, l);
    }
  }

  /** After redaction some output shows the secret, in either encoding. */
  ghost predicate SecretShows(secret: Secret)
  {
    exists output, r: nat, p :: p in Patterns(secret) && MatchesAt(Redact(output, secret), r, p)
  }

  /** Exactly which secrets can be seen in some redacted output. */
  lemma SecretShowsIff(secret: Secret)
    requires secret.utf8 == [] ==> secret.utf16 == []
    ensures SecretShows(secret) <==> CanShow(Patterns(secret), MARKER)
  {
    var l, c := Patterns(secret)[0], Patterns(secret)[1];
    assert Patterns(secret) == [l, c];
    VisibleIff(l, c, MARKER);
    if secret.utf8 != [] {
      assert forall output, r: nat, p :: Shows([l, c], MARKER, output, r, p) <==> MatchesAt(Redact(output, secret), r, p);
    }
  }

  /** A secret that is part of the marker is seen in the redaction of itself. */
  lemma SecretInMarkerShows(secret: Secret, at: nat)
    requires MatchesAt(MARKER, at, secret.utf8)
    ensures MatchesAt(Redact(secret.utf8, secret), at, secret.utf8)
  {
    PatternsAreLongestFirst(secret);
    MarkerCanSpellTheSecret(Patterns(secret), secret.utf8, MARKER, at);
  }
}
