/**
 Removing trailing commas from the Bun lock file before it is read as JSON: a
 one-pass scanner that tracks string literals and escapes.
 */
module TrailingCommas {

  // ----- Specification -----

  datatype Lex = Outside | InString | Escaped

  function Advance(l: Lex, c: char): Lex
  {
    match l
    case Outside => if c == '\"' then InString else Outside
    case InString => if c == '\\' then Escaped else if c == '\"' then Outside else InString
    case Escaped => InString
  }

  /** The lexer state before position `i`. */
  function LexAt(text: string, i: nat): Lex
    requires i <= |text|
  {
    if i == 0 then Outside else Advance(LexAt(text, i - 1), text[i - 1])
  }

  predicate IsSpace(c: char)
  {
    c == ' ' || c == '\t' || c == '\n' || c == '\r' || c == 12 as char
  }

  /** The first position from `i` on that is not white space, or the end. */
  function NextSolid(text: string, i: nat): (j: nat)
    requires i <= |text|
    ensures i <= j <= |text|
    ensures forall k :: i <= k < j ==> IsSpace(text[k])
    ensures j < |text| ==> !IsSpace(text[j])
    decreases |text| - i
  {
    if i < |text| && IsSpace(text[i]) then NextSolid(text, i + 1) else i
  }

  predicate OutsideComma(text: string, i: nat)
  {
    i < |text| && text[i] == ',' && LexAt(text, i).Outside?
  }

  /** A comma outside strings whose next solid character closes an object or an array. */
  predicate Trailing(text: string, i: nat)
  {
    OutsideComma(text, i)
    && var j := NextSolid(text, i + 1);
       j < |text| && (text[j] == '}' || text[j] == ']')
  }

  /** What remains of the first `n` characters. */
  function Kept(text: string, n: nat): string
    requires n <= |text|
  {
    if n == 0 then [] else Kept(text, n - 1) + if Trailing(text, n - 1) then [] else [text[n - 1]]
  }

  function Strip(text: string): string { Kept(text, |text|) }

  // ----- The program's scanner -----

  method StripTrailingCommas(source: string) returns (output: string)
    ensures output == Strip(source)
  {
    output := [];
    var inString, escaped := false, false;
    var index := 0;
    while index < |source|
      invariant index <= |source|
      invariant output == Kept(source, index)
      invariant LexAt(source, index) == if !inString then Outside else if escaped then Escaped else InString
      invariant escaped ==> inString
    {
      var c := source[index];
      if inString {
        output := output + [c];
        if escaped {
          escaped := false;
        } else if c == '\\' {
          escaped := true;
        } else if c == '\"' {
          inString := false;
        }
        index := index + 1;
        continue;
      }
      if c == '\"' {
        inString := true;
        output := output + [c];
        index := index + 1;
        continue;
      }
      if c == ',' {
        var next := index + 1;
        while next < |source| && IsSpace(source[next])
          invariant index + 1 <= next <= |source|
          invariant NextSolid(source, next) == NextSolid(source, index + 1)
        {
          next := next + 1;
        }
        if next < |source| && (source[next] == '}' || source[next] == ']') {
          index := index + 1;
          continue;
        }
      }
      output := output + [c];
      index := index + 1;
    }
  }

  // ----- Where characters go -----

  /** The place in the output of what follows the first `n` characters. */
  function Place(text: string, n: nat): nat
    requires n <= |text|
  {
    |Kept(text, n)|
  }

  lemma {:induction false} KeptIsPrefix(text: string, m: nat, n: nat)
    requires m <= n <= |text|
    ensures Kept(text, m) <= Kept(text, n)
    decreases n - m
  {
    if m < n { KeptIsPrefix(text, m, n - 1); }
  }

  lemma {:induction false} LexOfPrefix(a: string, b: string, i: nat)
    requires a <= b && i <= |a|
    ensures LexAt(a, i) == LexAt(b, i)
  {
    if i > 0 { LexOfPrefix(a, b, i - 1); }
  }

  lemma {:induction false} LexOfKept(text: string, n: nat)
    requires n <= |text|
    ensures LexAt(Kept(text, n), Place(text, n)) == LexAt(text, n)
  {
    if n > 0 {
      LexOfKept(text, n - 1);
      KeptIsPrefix(text, n - 1, n);
      LexOfPrefix(Kept(text, n - 1), Kept(text, n), Place(text, n - 1));
    }
  }

  /** Both texts are in the same lexer state at matching places, so strings stay strings. */
  lemma {:induction false} LexersStayAligned(text: string, n: nat)
    requires n <= |text|
    ensures Place(text, n) <= |Strip(text)|
    ensures LexAt(Strip(text), Place(text, n)) == LexAt(text, n)
  {
    KeptIsPrefix(text, n, |text|);
    LexOfKept(text, n);
    LexOfPrefix(Kept(text, n), Strip(text), Place(text, n));
  }

  /** Every character that is not a trailing comma appears unchanged at its place. */
  lemma KeptCharacter(text: string, i: nat)
    requires i < |text| && !Trailing(text, i)
    ensures Place(text, i) < |Strip(text)|
    ensures Strip(text)[Place(text, i)] == text[i]
    ensures Place(text, i + 1) == Place(text, i) + 1
  {
    KeptIsPrefix(text, i + 1, |text|);
  }

  /** Every character inside a string literal, and every quote, is kept in place and in state. */
  lemma {:induction false} StringsAreKept(text: string, i: nat)
    requires i < |text| && (!LexAt(text, i).Outside? || text[i] == '\"')
    ensures Place(text, i) < |Strip(text)|
    ensures Strip(text)[Place(text, i)] == text[i]
    ensures LexAt(Strip(text), Place(text, i)) == LexAt(text, i)
  {
    KeptCharacter(text, i);
    LexersStayAligned(text, i);
  }

  /** Every character of the output comes from a kept character of the input. */
  lemma {:induction false} OutputHasSource(text: string, n: nat, k: nat) returns (i: nat)
    requires n <= |text| && k < Place(text, n)
    ensures i < n && !Trailing(text, i) && Place(text, i) == k
  {
    if k == Place(text, n - 1) {
      i := n - 1;
    } else {
      i := OutputHasSource(text, n - 1, k);
    }
  }

  lemma {:induction false} SpacesAreKept(text: string, a: nat, b: nat)
    requires a <= b <= |text|
    requires forall k :: a <= k < b ==> IsSpace(text[k])
    ensures Place(text, b) == Place(text, a) + (b - a)
    ensures Place(text, b) <= |Strip(text)|
    ensures forall k :: Place(text, a) <= k < Place(text, b) ==> IsSpace(Strip(text)[k])
    decreases b - a
  {
    KeptIsPrefix(text, b, |text|);
    if a < b {
      SpacesAreKept(text, a, b - 1);
      KeptCharacter(text, b - 1);
    }
  }

  lemma {:induction false} NextSolidUnique(text: string, i: nat, j: nat)
    requires i <= j <= |text|
    requires forall k :: i <= k < j ==> IsSpace(text[k])
    requires j < |text| ==> !IsSpace(text[j])
    ensures NextSolid(text, i) == j
    decreases j - i
  {
  }

  // ----- When the result is final -----

  /** The next solid character after `i` is a comma that gets removed. */
  predicate CommaBeforeTrailing(text: string, i: nat)
  {
    OutsideComma(text, i) && Trailing(text, NextSolid(text, i + 1))
  }

  /** The next solid character after a kept character that is followed by a kept one. */
  lemma SolidAfterKept(text: string, i: nat)
    requires i < |text| && !Trailing(text, i) && !Trailing(text, NextSolid(text, i + 1))
    ensures Place(text, i) < |Strip(text)|
    ensures NextSolid(Strip(text), Place(text, i) + 1) == Place(text, NextSolid(text, i + 1))
  {
    var j := NextSolid(text, i + 1);
    KeptCharacter(text, i);
    SpacesAreKept(text, i + 1, j);
    if j < |text| { KeptCharacter(text, j); }
    NextSolidUnique(Strip(text), Place(text, i) + 1, Place(text, j));
  }

  /** Past a removed comma the output's next solid character is the closing one. */
  lemma SolidAfterRemoved(text: string, i: nat)
    requires i < |text| && !Trailing(text, i) && Trailing(text, NextSolid(text, i + 1))
    ensures Place(text, i) < |Strip(text)|
    ensures
      var closer := NextSolid(text, NextSolid(text, i + 1) + 1);
      NextSolid(Strip(text), Place(text, i) + 1) == Place(text, closer)
  {
    var j := NextSolid(text, i + 1);
    var closer := NextSolid(text, j + 1);
    KeptCharacter(text, i);
    SpacesAreKept(text, i + 1, j);
    SpacesAreKept(text, j + 1, closer);
    KeptCharacter(text, closer);
    assert Place(text, j + 1) == Place(text, j);
    NextSolidUnique(Strip(text), Place(text, i) + 1, Place(text, closer));
  }

  /** A kept character becomes a trailing comma exactly when the comma after it was removed. */
  lemma BecomesTrailingIff(text: string, i: nat)
    requires i < |text| && !Trailing(text, i)
    ensures Trailing(Strip(text), Place(text, i)) <==> CommaBeforeTrailing(text, i)
  {
    var j := NextSolid(text, i + 1);
    KeptCharacter(text, i);
    LexersStayAligned(text, i);
    if Trailing(text, j) {
      SolidAfterRemoved(text, i);
      KeptCharacter(text, NextSolid(text, j + 1));
    } else {
      SolidAfterKept(text, i);
      if j < |text| { KeptCharacter(text, j); }
    }
  }

  lemma {:induction false} NothingTrailingKeepsAll(text: string, n: nat)
    requires n <= |text|
    ensures (forall i :: 0 <= i < n ==> !Trailing(text, i)) ==> Kept(text, n) == text[..n]
    ensures |Kept(text, n)| <= n
    ensures |Kept(text, n)| == n ==> forall i :: 0 <= i < n ==> !Trailing(text, i)
  {
    if n > 0 {
      NothingTrailingKeepsAll(text, n - 1);
      assert text[..n] == text[..n - 1] + [text[n - 1]];
    }
  }

  /** A text is unchanged exactly when it has no trailing comma. */
  lemma UnchangedIffNoneTrailing(text: string)
    ensures Strip(text) == text <==> forall i :: 0 <= i < |text| ==> !Trailing(text, i)
  {
    NothingTrailingKeepsAll(text, |text|);
    assert text[..|text|] == text;
  }

  /** Stripping twice is stripping once exactly when no comma stands before a removed one. */
  lemma StripIsFinalIff(text: string)
    ensures Strip(Strip(text)) == Strip(text) <==> forall i :: 0 <= i < |text| ==> !CommaBeforeTrailing(text, i)
  {
    UnchangedIffNoneTrailing(Strip(text));
    if i :| 0 <= i < |text| && CommaBeforeTrailing(text, i) {
      BecomesTrailingIff(text, i);
      KeptCharacter(text, i);
    } else {
      forall k | 0 <= k < |Strip(text)|
        ensures !Trailing(Strip(text), k)
      {
        var i := OutputHasSource(text, |text|, k);
        BecomesTrailingIff(text, i);
      }
    }
  }

  /** Two commas in a row before a brace need two passes. */
  lemma DoubledCommaNeedsTwoPasses()
    ensures Strip(",,}") == ",}"
    ensures Strip(Strip(",,}")) == "}"
  {
    var s, t := ",,}", ",}";
    assert LexAt(s, 1) == Outside && NextSolid(s, 1) == 1 && NextSolid(s, 2) == 2;
    assert !Trailing(s, 0) && Trailing(s, 1) && !Trailing(s, 2);
    assert Kept(s, 0) == [] && Kept(s, 1) == "," && Kept(s, 2) == "," && Kept(s, 3) == ",}";
    assert NextSolid(t, 1) == 1 && Trailing(t, 0) && !Trailing(t, 1);
    assert Kept(t, 0) == [] && Kept(t, 1) == [] && Kept(t, 2) == "}";
  }

  // ----- What counts as a blank and as a string -----

  /** The blanks are the ASCII tab, line feed, form feed, carriage return and space. */
  lemma BlankCodes(c: char)
    ensures IsSpace(c) <==> c as int in {9, 10, 12, 13, 32}
  {
  }

  /** Text as a JSON string holds it: quotes and backslashes are escaped. */
  function Escape(s: string): string
  {
    if s == [] then []
    else Escape(s[..|s| - 1]) + if s[|s| - 1] == '\"' || s[|s| - 1] == '\\' then ['\\', s[|s| - 1]] else [s[|s| - 1]]
  }

  lemma {:induction false} LexOfEscaped(before: string, s: string)
    requires LexAt(before, |before|).Outside?
    ensures
      var text := before + ['\"'] + Escape(s);
      LexAt(text, |text|).InString? && forall i :: |before| < i <= |text| ==> !LexAt(text, i).Outside?
  {
    var quoted := before + ['\"'];
    LexOfPrefix(before, quoted, |before|);
    if s == [] {
      assert quoted + Escape(s) == quoted;
    } else {
      var last, shorter := s[|s| - 1], quoted + Escape(s[..|s| - 1]);
      LexOfEscaped(before, s[..|s| - 1]);
      var text := quoted + Escape(s);
      var added := if last == '\"' || last == '\\' then ['\\', last] else [last];
      assert text == shorter + added;
      LexAfter(shorter, added);
      forall i | |before| < i <= |text|
        ensures !LexAt(text, i).Outside?
      {
        if i <= |shorter| { LexOfPrefix(shorter, text, i); }
      }
    }
  }

  /** Inside a string, an escaped character or a plain one leaves the lexer inside it. */
  lemma {:induction false} LexAfter(shorter: string, added: string)
    requires LexAt(shorter, |shorter|).InString?
    requires (|added| == 2 && added[0] == '\\') || (|added| == 1 && added[0] != '\"' && added[0] != '\\')
    ensures LexAt(shorter + added, |shorter| + |added|).InString?
    ensures forall i :: |shorter| <= i <= |shorter| + |added| ==> !LexAt(shorter + added, i).Outside?
  {
    var text := shorter + added;
    LexOfPrefix(shorter, text, |shorter|);
    assert LexAt(text, |shorter| + 1) == Advance(LexAt(text, |shorter|), added[0]);
    if |added| == 2 {
      assert LexAt(text, |shorter| + 2) == Advance(LexAt(text, |shorter| + 1), added[1]);
    }
  }

  /** Any text, quoted as JSON does it, is one string literal: inside throughout, and outside right after it. */
  lemma {:induction false} QuotedIsOneString(before: string, s: string)
    requires LexAt(before, |before|).Outside?
    ensures
      var text := before + ['\"'] + Escape(s) + ['\"'];
      && LexAt(text, |text|).Outside?
      && forall i :: |before| < i < |text| ==> !LexAt(text, i).Outside?
  {
    var inner := before + ['\"'] + Escape(s);
    var text := inner + ['\"'];
    LexOfEscaped(before, s);
    LexOfPrefix(inner, text, |inner|);
    forall i | |before| < i < |text|
      ensures !LexAt(text, i).Outside?
    {
      LexOfPrefix(inner, text, i);
    }
  }

  /** A comma after any text outside strings is removed exactly when blanks and then a closing bracket follow. */
  lemma {:induction false} CommaBeforeCloser(before: string, blanks: string, closer: char, after: string)
    requires LexAt(before, |before|).Outside? && forall i :: 0 <= i < |blanks| ==> blanks[i] as int in {9, 10, 12, 13, 32}
    requires closer as int !in {9, 10, 12, 13, 32}
    ensures Trailing(before + "," + blanks + [closer] + after, |before|) <==> closer == '}' || closer == ']'
  {
    var text, i := before + "," + blanks + [closer] + after, |before|;
    LexOfPrefix(before, text, i);
    forall k | i + 1 <= k < i + 1 + |blanks|
      ensures IsSpace(text[k])
    {
      assert text[k] == blanks[k - i - 1];
    }
    assert text[i + 1 + |blanks|] == closer;
    NextSolidUnique(text, i + 1, i + 1 + |blanks|);
  }
}
