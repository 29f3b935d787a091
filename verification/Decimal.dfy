/** Decimal text of numbers, as the formatter prints it and the parser reads it back. */
module Decimal {

  predicate IsDigit(c: char) { '0' <= c <= '9' }

  predicate AllDigits(t: string) { forall i :: 0 <= i < |t| ==> IsDigit(t[i]) }

  function DigitChar(n: nat): (c: char)
    requires n < 10
    ensures IsDigit(c)
  {
    '0' + n as char
  }

  function DigitValue(c: char): (n: nat)
    requires IsDigit(c)
    ensures n < 10
  {
    (c - '0') as nat
  }

  function Power10(w: nat): (p: nat)
    ensures p > 0
  {
    if w == 0 then 1 else 10 * Power10(w - 1)
  }

  /** The usual decimal text without leading zeros. */
  function Text(n: nat): (t: string)
    ensures t != [] && AllDigits(t)
  {
    if n < 10 then [DigitChar(n)] else Text(n / 10) + [DigitChar(n % 10)]
  }

  /** Decimal text padded on the left with zeros to at least `w` characters. */
  function Padded(n: nat, w: nat): string
  {
    Zeros(w - |Text(n)|) + Text(n)
  }

  function Zeros(k: int): string { if k <= 0 then [] else Zeros(k - 1) + ['0'] }

  /** Exactly `w` digits, most significant first. */
  function Fixed(n: nat, w: nat): (t: string)
    ensures |t| == w && AllDigits(t)
  {
    if w == 0 then [] else Fixed(n / 10, w - 1) + [DigitChar(n % 10)]
  }

  function Value(t: string): nat
    requires AllDigits(t)
  {
    if t == [] then 0 else 10 * Value(t[..|t| - 1]) + DigitValue(t[|t| - 1])
  }

  lemma {:induction false} ValueOfFixed(n: nat, w: nat)
    requires n < Power10(w)
    ensures Value(Fixed(n, w)) == n
  {
    if w > 0 {
      ValueOfFixed(n / 10, w - 1);
      assert Fixed(n, w)[..w - 1] == Fixed(n / 10, w - 1);
    }
  }

  lemma {:induction false} FixedOfValue(t: string)
    requires AllDigits(t)
    ensures Value(t) < Power10(|t|)
    ensures Fixed(Value(t), |t|) == t
  {
    if t != [] {
      var front := t[..|t| - 1];
      FixedOfValue(front);
      assert Value(t) / 10 == Value(front);
      assert t == front + [t[|t| - 1]];
    }
  }

  lemma {:induction false} ValueOfText(n: nat)
    ensures Value(Text(n)) == n
  {
    if n >= 10 {
      ValueOfText(n / 10);
      assert Text(n)[..|Text(n)| - 1] == Text(n / 10);
    } else {
      assert Text(n)[..0] == [];
    }
  }

  /** Different numbers have different texts. */
  lemma {:induction false} TextIsInjective(m: nat, n: nat)
    requires Text(m) == Text(n)
    ensures m == n
  {
    ValueOfText(m);
    ValueOfText(n);
  }

  /** A number is at most as long as its width exactly when it is below the power of ten. */
  lemma {:induction false} TextLength(n: nat, w: nat)
    requires w > 0
    ensures |Text(n)| <= w <==> n < Power10(w)
  {
    if w == 1 {
      assert Power10(1) == 10 * Power10(0);
    } else if n >= 10 {
      TextLength(n / 10, w - 1);
    }
  }

  lemma {:induction false} FixedZero(w: nat)
    ensures Fixed(0, w) == Zeros(w)
  {
    if w > 0 { FixedZero(w - 1); }
  }

  /** Zero padding gives exactly the fixed-width digits while the number fits. */
  lemma {:induction false} PaddedIsFixed(n: nat, w: nat)
    requires w > 0 && n < Power10(w)
    ensures Padded(n, w) == Fixed(n, w)
  {
    TextLength(n, w);
    if n < 10 {
      FixedZero(w - 1);
    } else {
      TextLength(n, 1);
      assert Power10(1) == 10 * Power10(0);
      PaddedIsFixed(n / 10, w - 1);
      assert Zeros(w - |Text(n)|) == Zeros((w - 1) - |Text(n / 10)|);
    }
  }

  lemma {:induction false} ZerosLength(k: int)
    ensures |Zeros(k)| == if k <= 0 then 0 else k
  {
    if k > 0 { ZerosLength(k - 1); }
  }

  lemma {:induction false} ZerosAreDigits(k: int)
    ensures AllDigits(Zeros(k)) && Value(Zeros(k)) == 0
  {
    if k > 0 {
      ZerosAreDigits(k - 1);
      assert Zeros(k)[..|Zeros(k)| - 1] == Zeros(k - 1);
    }
  }

  lemma {:induction false} LeadingZerosDoNotCount(z: string, t: string)
    requires AllDigits(z) && Value(z) == 0 && AllDigits(t)
    ensures AllDigits(z + t) && Value(z + t) == Value(t)
    decreases |t|
  {
    if t == [] {
      assert z + t == z;
    } else {
      var front := t[..|t| - 1];
      LeadingZerosDoNotCount(z, front);
      assert (z + t)[..|z + t| - 1] == z + front;
    }
  }

  /** Padded text has at least its width and reads back as the number. */
  lemma PaddedReadsBack(n: nat, w: nat)
    ensures AllDigits(Padded(n, w)) && Value(Padded(n, w)) == n
    ensures |Padded(n, w)| >= w
  {
    var k := w - |Text(n)|;
    ZerosAreDigits(k);
    ZerosLength(k);
    ValueOfText(n);
    LeadingZerosDoNotCount(Zeros(k), Text(n));
  }
}
