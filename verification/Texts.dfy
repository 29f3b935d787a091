/** Text helpers that several scanners share. */
module Texts {

  function LowerChar(c: char): char { if 'A' <= c <= 'Z' then c + 32 as char else c }

  /** ASCII lower-casing. */
  function Lower(s: string): (r: string)
    ensures |r| == |s|
  {
    seq(|s|, i requires 0 <= i < |s| => LowerChar(s[i]))
  }

  const UPPER := "ABCDEFGHIJKLMNOPQRSTUVWXYZ"
  const LOWER := "abcdefghijklmnopqrstuvwxyz"

  lemma LetterCodes()
    ensures forall i :: 0 <= i < 26 ==> UPPER[i] as int == 65 + i
    ensures forall i :: 0 <= i < 26 ==> LOWER[i] as int == 97 + i
  {
  }

  lemma LetterRanges(c: char)
    ensures c in UPPER <==> 'A' <= c <= 'Z'
    ensures c in LOWER <==> 'a' <= c <= 'z'
  {
    LetterCodes();
    if 'A' <= c <= 'Z' { assert UPPER[c as int - 65] == c; }
    if 'a' <= c <= 'z' { assert LOWER[c as int - 97] == c; }
  }

  /** The upper-case letters and no other characters change, each to the lower-case letter at its place. */
  lemma LowerMapsLetters(c: char, i: nat)
    requires i < 26
    ensures LowerChar(UPPER[i]) == LOWER[i]
    ensures c !in UPPER ==> LowerChar(c) == c
  {
    LetterCodes();
    LetterRanges(c);
  }

  predicate OccursAt(text: string, needle: string, i: nat)
  {
    i + |needle| <= |text| && text[i..i + |needle|] == needle
  }

  predicate Contains(text: string, part: string)
  {
    exists i :: 0 <= i <= |text| && OccursAt(text, part, i)
  }

  lemma ContainsPart(before: string, part: string, after: string)
    ensures Contains(before + part + after, part)
  {
    assert OccursAt(before + part + after, part, |before|);
  }
}
