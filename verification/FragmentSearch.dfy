/**
 Searches that the assembly audit runs over disassembly lines: ordered call
 fragments, and whole words.
 */
module FragmentSearch {
  import opened Wrappers
  import opened Texts

  /** The leftmost occurrence at or after `from`. */
  function Find(text: string, needle: string, from: nat): (r: Option<nat>)
    ensures r.Some? ==> from <= r.value && OccursAt(text, needle, r.value)
    decreases |text| - from
  {
    if from + |needle| > |text| then None
    else if OccursAt(text, needle, from) then Some(from)
    else Find(text, needle, from + 1)
  }

  /** An occurrence at or after `from` is found, or one before it is. */
  lemma {:induction false} FindIsLeftmost(text: string, needle: string, from: nat, i: nat)
    requires from <= i && OccursAt(text, needle, i)
    ensures Find(text, needle, from).Some?
    ensures Find(text, needle, from).value <= i
    decreases i - from
  {
    if from < i && !OccursAt(text, needle, from) {
      FindIsLeftmost(text, needle, from + 1, i);
    }
  }

  // ----- Ordered fragments -----

  /** Positions of all fragments in order, none overlapping the one before, from `from` on. */
  predicate Placement(text: string, fragments: seq<string>, from: nat, p: seq<nat>)
  {
    && |p| == |fragments|
    && (forall i :: 0 <= i < |p| ==> OccursAt(text, fragments[i], p[i]))
    && (p != [] ==> from <= p[0])
    && (forall i :: 1 <= i < |p| ==> p[i - 1] + |fragments[i - 1]| <= p[i])
  }

  function Greedy(text: string, fragments: seq<string>, from: nat): bool
    decreases |fragments|
  {
    fragments == []
    || match Find(text, fragments[0], from)
       case None => false
       case Some(i) => Greedy(text, fragments[1..], i + |fragments[0]|)
  }

  /** Taking the leftmost match every time finds a placement if there is any. */
  lemma {:induction false} GreedyIsComplete(text: string, fragments: seq<string>, from: nat, p: seq<nat>)
    requires Placement(text, fragments, from, p)
    ensures Greedy(text, fragments, from)
    decreases |fragments|
  {
    if fragments != [] {
      var first := Find(text, fragments[0], from);
      FindIsLeftmost(text, fragments[0], from, p[0]);
      var rest := p[1..];
      forall i | 0 <= i < |rest|
        ensures OccursAt(text, fragments[1..][i], rest[i])
        ensures i > 0 ==> rest[i - 1] + |fragments[1..][i - 1]| <= rest[i]
      {
        assert OccursAt(text, fragments[i + 1], p[i + 1]);
      }
      assert |p| > 1 ==> p[0] + |fragments[0]| <= p[1];
      GreedyIsComplete(text, fragments[1..], first.value + |fragments[0]|, rest);
    }
  }

  lemma {:induction false} GreedyIsSound(text: string, fragments: seq<string>, from: nat) returns (p: seq<nat>)
    requires Greedy(text, fragments, from)
    ensures Placement(text, fragments, from, p)
    decreases |fragments|
  {
    if fragments == [] {
      p := [];
    } else {
      var i := Find(text, fragments[0], from).value;
      var rest := GreedyIsSound(text, fragments[1..], i + |fragments[0]|);
      p := [i] + rest;
      forall j | 0 <= j < |p|
        ensures OccursAt(text, fragments[j], p[j])
        ensures j > 0 ==> p[j - 1] + |fragments[j - 1]| <= p[j]
      {
        if j > 0 {
          assert OccursAt(text, fragments[1..][j - 1], rest[j - 1]);
        }
        if j > 1 {
          assert rest[j - 2] + |fragments[1..][j - 2]| <= rest[j - 1];
        }
      }
    }
  }

  /** The greedy search succeeds exactly when some placement exists. */
  lemma {:induction false} GreedyIff(text: string, fragments: seq<string>, from: nat)
    ensures Greedy(text, fragments, from) <==> exists p :: Placement(text, fragments, from, p)
  {
    if Greedy(text, fragments, from) {
      var p := GreedyIsSound(text, fragments, from);
    } else if p :| Placement(text, fragments, from, p) {
      GreedyIsComplete(text, fragments, from, p);
    }
  }

  function LowerAll(fragments: seq<string>): (r: seq<string>)
    ensures |r| == |fragments|
    ensures forall i :: 0 <= i < |r| ==> r[i] == Lower(fragments[i])
  {
    seq(|fragments|, i requires 0 <= i < |fragments| => Lower(fragments[i]))
  }

  lemma {:induction false} GreedyUnfold(text: string, fragments: seq<string>, n: nat, from: nat)
    requires n < |fragments|
    ensures Greedy(text, fragments[n..], from)
       <==> Find(text, fragments[n], from).Some?
            && Greedy(text, fragments[n + 1..], Find(text, fragments[n], from).value + |fragments[n]|)
  {
  }

  method ScanFragments(text: string, fragments: seq<string>) returns (r: bool)
    ensures r == Greedy(text, fragments, 0)
  {
    var offset: nat := 0;
    assert fragments[0..] == fragments;
    for n := 0 to |fragments|
      invariant Greedy(text, fragments[n..], offset) == Greedy(text, fragments, 0)
    {
      GreedyUnfold(text, fragments, n, offset);
      var index := Find(text, fragments[n], offset);
      if index.None? {
        return false;
      }
      offset := index.value + |fragments[n]|;
    }
    r := true;
  }

  /** True exactly when the folded fragments occur in order without overlapping. */
  method IsCallSequence(line: string, fragments: seq<string>) returns (r: bool)
    ensures r <==> exists p :: Placement(Lower(line), LowerAll(fragments), 0, p)
  {
    GreedyIff(Lower(line), LowerAll(fragments), 0);
    r := ScanFragments(Lower(line), LowerAll(fragments));
  }

  // ----- Whole words -----

  predicate IsWord(c: char)
  {
    'a' <= c <= 'z' || 'A' <= c <= 'Z' || '0' <= c <= '9' || c == '_'
  }

  lemma WordCharacters(c: char)
    ensures IsWord(c) <==> c in UPPER || c in LOWER || c in "0123456789" || c == '_'
  {
    LetterRanges(c);
    var digits := "0123456789";
    assert forall i :: 0 <= i < 10 ==> digits[i] as int == 48 + i;
    if '0' <= c <= '9' { assert digits[c as int - 48] == c; }
  }

  predicate NoWordAt(text: string, i: int) { 0 <= i < |text| ==> !IsWord(text[i]) }

  /** The end of the run of word characters from `i` on. */
  function RunEnd(text: string, i: nat): (j: nat)
    requires i <= |text|
    ensures i <= j <= |text| && NoWordAt(text, j)
    ensures forall k :: i <= k < j ==> IsWord(text[k])
    decreases |text| - i
  {
    if i < |text| && IsWord(text[i]) then RunEnd(text, i + 1) else i
  }

  /** An occurrence with no word character on either side; a suffix of word characters may be allowed. */
  predicate WordAt(text: string, token: string, suffix: bool, s: nat)
  {
    OccursAt(text, token, s)
    && NoWordAt(text, s - 1)
    && NoWordAt(text, if suffix then RunEnd(text, s + |token|) else s + |token|)
  }

  /** With a suffix allowed, only the character before the occurrence is ever decisive. */
  lemma SuffixNeedsOnlyTheStart(text: string, token: string, s: nat)
    ensures WordAt(text, token, true, s) <==> OccursAt(text, token, s) && (s == 0 || !IsWord(text[s - 1]))
  {
  }

  /** Search the occurrences from left to right, each starting after the end of the last. */
  predicate ScanWord(text: string, token: string, suffix: bool, from: nat)
    decreases |text| - from
  {
    var m := Find(text, token, from);
    m.Some?
    && (WordAt(text, token, suffix, m.value)
        || ScanWord(text, token, suffix, m.value + if token == "" then 1 else |token|))
  }

  predicate ContainsWord(line: string, token: string) { ScanWord(Lower(line), Lower(token), false, 0) }

  predicate ContainsWordWithSuffix(line: string, token: string) { ScanWord(Lower(line), Lower(token), true, 0) }

  /** Shifted by `k` the token overlaps itself and the shift ends at a character that is no word character. */
  predicate WeakOverlap(token: string, k: nat)
  {
    0 < k < |token| && token[k..] == token[..|token| - k] && !IsWord(token[k - 1])
  }

  predicate Robust(token: string) { forall k :: 0 < k < |token| ==> !WeakOverlap(token, k) }

  /** Two overlapping occurrences show the token overlapping itself, weakly if the second may start a word. */
  lemma OverlapShowsBorder(text: string, token: string, m: nat, s: nat)
    requires OccursAt(text, token, m) && OccursAt(text, token, s) && m < s < m + |token|
    ensures WeakOverlap(token, s - m) <==> NoWordAt(text, s - 1)
  {
  }

  lemma {:induction false} ScanIsSound(text: string, token: string, suffix: bool, from: nat) returns (s: nat)
    requires ScanWord(text, token, suffix, from)
    ensures from <= s && WordAt(text, token, suffix, s)
    decreases |text| - from
  {
    s := Find(text, token, from).value;
    if !WordAt(text, token, suffix, s) {
      s := ScanIsSound(text, token, suffix, s + if token == "" then 1 else |token|);
    }
  }

  /** With a robust token the non-overlapping scan misses no word. */
  lemma {:induction false} ScanIsComplete(text: string, token: string, suffix: bool, from: nat, s: nat)
    requires Robust(token) && from <= s && WordAt(text, token, suffix, s)
    ensures ScanWord(text, token, suffix, from)
    decreases |text| - from
  {
    FindIsLeftmost(text, token, from, s);
    var m := Find(text, token, from);
    if !WordAt(text, token, suffix, m.value) {
      var next := m.value + if token == "" then 1 else |token|;
      if s < next {
        OverlapShowsBorder(text, token, m.value, s);
      } else {
        ScanIsComplete(text, token, suffix, next, s);
      }
    }
  }

  /** A line on which the scan misses a word when the token overlaps itself weakly. */
  function MissedLine(token: string, k: nat): string
    requires k < |token|
  {
    [if token[0] == 'a' then 'b' else 'a'] + token[..k] + token
  }

  lemma MissedOccurrences(token: string, k: nat)
    requires WeakOverlap(token, k)
    ensures
      var text := MissedLine(token, k);
      OccursAt(text, token, 1) && OccursAt(text, token, k + 1) && !OccursAt(text, token, 0)
  {
  }

  lemma {:induction false} MissedWord(token: string, k: nat, suffix: bool)
    requires WeakOverlap(token, k)
    ensures WordAt(MissedLine(token, k), token, suffix, k + 1)
    ensures !ScanWord(MissedLine(token, k), token, suffix, 0)
  {
    var text, n := MissedLine(token, k), |token|;
    MissedOccurrences(token, k);
    FindIsLeftmost(text, token, 0, 1);
    assert IsWord(text[0]) && !IsWord(text[k]);
    assert !WordAt(text, token, suffix, 1);
    assert Find(text, token, 1 + n).None?;
  }

  lemma {:induction false} LowerIsIdempotent(s: string)
    ensures Lower(Lower(s)) == Lower(s)
  {
  }

  lemma MissedLineIsLower(token: string, k: nat)
    requires k < |token| && Lower(token) == token
    ensures Lower(MissedLine(token, k)) == MissedLine(token, k)
  {
  }

  ghost predicate ScanFindsEveryWord(token: string, suffix: bool)
  {
    forall line :: (if suffix then ContainsWordWithSuffix(line, token) else ContainsWord(line, token))
              <==> exists s :: WordAt(Lower(line), Lower(token), suffix, s)
  }

  /** The scan finds every word on every line exactly for robust tokens, with or without a suffix. */
  lemma ScanFindsEveryWordIff(token: string, suffix: bool)
    ensures ScanFindsEveryWord(token, suffix) <==> Robust(Lower(token))
  {
    var t := Lower(token);
    if Robust(t) {
      forall line
        ensures ScanWord(Lower(line), t, suffix, 0) <==> exists s :: WordAt(Lower(line), t, suffix, s)
      {
        if ScanWord(Lower(line), t, suffix, 0) {
          var s := ScanIsSound(Lower(line), t, suffix, 0);
        } else if s :| WordAt(Lower(line), t, suffix, s) {
          ScanIsComplete(Lower(line), t, suffix, 0, s);
        }
      }
    } else {
      var k :| 0 < k < |t| && WeakOverlap(t, k);
      LowerIsIdempotent(token);
      MissedWord(t, k, suffix);
      MissedLineIsLower(t, k);
      var line := MissedLine(t, k);
      assert WordAt(Lower(line), t, suffix, k + 1) && !ScanWord(Lower(line), t, suffix, 0);
    }
  }

  /** Tokens made of word characters only are robust. */
  lemma WordTokensAreRobust(token: string)
    requires forall i :: 0 <= i < |token| ==> IsWord(token[i])
    ensures Robust(Lower(token))
  {
  }
}
