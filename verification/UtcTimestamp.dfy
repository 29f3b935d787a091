/**
 The RFC 3339 text of a commit time and the independent validator that release
 metadata applies to such text.
 */
module UtcTimestamp {
  import opened CivilTime
  import opened Decimal

  /** Signed zero padding: the sign counts towards the width. */
  function Signed(n: int, w: nat): string
    requires w > 0
  {
    if n >= 0 then Padded(n, w) else "-" + Padded(-n, w - 1)
  }

  /** A negative number is printed as its sign and its magnitude, which reads back. */
  lemma SignedReadsBack(n: int, w: nat)
    requires w > 0
    ensures n >= 0 ==> AllDigits(Signed(n, w)) && Value(Signed(n, w)) == n
    ensures n < 0 ==> Signed(n, w)[0] == '-' && AllDigits(Signed(n, w)[1..]) && Value(Signed(n, w)[1..]) == -n
    ensures |Signed(n, w)| >= w
  {
    if n >= 0 {
      PaddedReadsBack(n, w);
    } else {
      PaddedReadsBack(-n, w - 1);
      assert Signed(n, w)[1..] == Padded(-n, w - 1);
    }
  }

  /** The six fields between their fixed punctuation. */
  function Laid(y: string, mo: string, d: string, h: string, mi: string, s: string): string
  {
    y + "-" + mo + "-" + d + "T" + h + ":" + mi + ":" + s + "Z"
  }

  function Print(t: DateTime): string
  {
    Laid(Signed(t.date.year, 4), Signed(t.date.month, 2), Signed(t.date.day, 2),
         Signed(t.hour, 2), Signed(t.minute, 2), Signed(t.second, 2))
  }

  function CommitTimeUtc(seconds: int): string { Print(FromUnix(seconds)) }

  predicate Punctuated(value: string)
  {
    && |value| == 20
    && value[4] == '-' && value[7] == '-' && value[10] == 'T'
    && value[13] == ':' && value[16] == ':' && value[19] == 'Z'
  }

  /** Punctuation at the six fixed places and digits in the fields between them. */
  predicate Shaped(value: string)
  {
    && Punctuated(value)
    && AllDigits(value[0..4]) && AllDigits(value[5..7]) && AllDigits(value[8..10])
    && AllDigits(value[11..13]) && AllDigits(value[14..16]) && AllDigits(value[17..19])
  }

  predicate DigitsElsewhere(value: string)
  {
    forall i :: 0 <= i < |value| ==>
      i == 4 || i == 7 || i == 10 || i == 13 || i == 16 || i == 19 || IsDigit(value[i])
  }

  /** The fields hold digits exactly when every byte but the punctuation is a digit. */
  lemma ShapedIff(value: string)
    ensures Shaped(value) <==> Punctuated(value) && DigitsElsewhere(value)
  {
    if Shaped(value) {
      forall i | 0 <= i < 20
        ensures i == 4 || i == 7 || i == 10 || i == 13 || i == 16 || i == 19 || IsDigit(value[i])
      {
        if i < 4 { assert IsDigit(value[0..4][i]); }
        else if 5 <= i < 7 { assert IsDigit(value[5..7][i - 5]); }
        else if 8 <= i < 10 { assert IsDigit(value[8..10][i - 8]); }
        else if 11 <= i < 13 { assert IsDigit(value[11..13][i - 11]); }
        else if 14 <= i < 16 { assert IsDigit(value[14..16][i - 14]); }
        else if 17 <= i < 19 { assert IsDigit(value[17..19][i - 17]); }
      }
    }
  }

  function Field(value: string, start: nat, end: nat): nat
    requires start <= end <= |value| && AllDigits(value[start..end])
  {
    Value(value[start..end])
  }

  function Parsed(value: string): DateTime
    requires Shaped(value)
  {
    DateTime(Date(Field(value, 0, 4), Field(value, 5, 7), Field(value, 8, 10)),
             Field(value, 11, 13), Field(value, 14, 16), Field(value, 17, 19))
  }

  predicate ValidUtcTimestamp(value: string)
  {
    if !Shaped(value) then false
    else
      var t := Parsed(value);
      var daysInMonth :=
        if t.date.month in {1, 3, 5, 7, 8, 10, 12} then 31
        else if t.date.month in {4, 6, 9, 11} then 30
        else if t.date.month == 2 && (t.date.year % 400 == 0 || (t.date.year % 4 == 0 && t.date.year % 100 != 0)) then 29
        else if t.date.month == 2 then 28
        else 0;
      && 1 <= t.date.month <= 12
      && 1 <= t.date.day <= daysInMonth
      && t.hour <= 23
      && t.minute <= 59
      && t.second <= 59
  }

  /** The validator accepts exactly the shaped texts whose fields are a real date and time. */
  lemma ValidMeansRealTime(value: string)
    ensures ValidUtcTimestamp(value) <==> Shaped(value) && RealTime(Parsed(value))
  {
  }

  lemma SmallPowers()
    ensures Power10(1) == 10 && Power10(2) == 100 && Power10(3) == 1_000 && Power10(4) == 10_000
  {
  }

  lemma LaidFields(y: string, mo: string, d: string, h: string, mi: string, s: string)
    requires |y| == 4 && |mo| == |d| == |h| == |mi| == |s| == 2
    requires AllDigits(y) && AllDigits(mo) && AllDigits(d) && AllDigits(h) && AllDigits(mi) && AllDigits(s)
    ensures Shaped(Laid(y, mo, d, h, mi, s))
    ensures var v := Laid(y, mo, d, h, mi, s);
            v[0..4] == y && v[5..7] == mo && v[8..10] == d && v[11..13] == h && v[14..16] == mi && v[17..19] == s
  {
  }

  lemma FieldsAreFixed(t: DateTime)
    requires RealTime(t) && 0 <= t.date.year <= 9_999
    ensures Print(t) == Laid(Fixed(t.date.year, 4), Fixed(t.date.month, 2), Fixed(t.date.day, 2),
                             Fixed(t.hour, 2), Fixed(t.minute, 2), Fixed(t.second, 2))
    ensures Value(Fixed(t.date.year, 4)) == t.date.year
    ensures Value(Fixed(t.date.month, 2)) == t.date.month && Value(Fixed(t.date.day, 2)) == t.date.day
    ensures Value(Fixed(t.hour, 2)) == t.hour && Value(Fixed(t.minute, 2)) == t.minute
    ensures Value(Fixed(t.second, 2)) == t.second
  {
    SmallPowers();
    FixedField(t.date.year, 4);
    FixedField(t.date.month, 2);
    FixedField(t.date.day, 2);
    FixedField(t.hour, 2);
    FixedField(t.minute, 2);
    FixedField(t.second, 2);
  }

  /** A printed real time with a four-digit year is accepted and parses back to itself. */
  lemma PrintParses(t: DateTime)
    requires RealTime(t) && 0 <= t.date.year <= 9_999
    ensures |Print(t)| == 20
    ensures ValidUtcTimestamp(Print(t))
    ensures Parsed(Print(t)) == t
  {
    FieldsAreFixed(t);
    LaidFields(Fixed(t.date.year, 4), Fixed(t.date.month, 2), Fixed(t.date.day, 2),
               Fixed(t.hour, 2), Fixed(t.minute, 2), Fixed(t.second, 2));
    ValidMeansRealTime(Print(t));
  }

  lemma {:induction false} FixedField(n: int, w: nat)
    requires w > 0 && 0 <= n < Power10(w)
    ensures Signed(n, w) == Fixed(n, w)
    ensures Value(Fixed(n, w)) == n
  {
    PaddedIsFixed(n, w);
    ValueOfFixed(n, w);
  }

  lemma {:induction false} DigitsPrintBack(t: string)
    requires t != [] && AllDigits(t)
    ensures Value(t) < Power10(|t|)
    ensures Signed(Value(t), |t|) == t
  {
    FixedOfValue(t);
    FixedField(Value(t), |t|);
  }

  lemma ShapedIsLaid(value: string)
    requires Shaped(value)
    ensures value == Laid(value[0..4], value[5..7], value[8..10], value[11..13], value[14..16], value[17..19])
  {
  }

  lemma {:induction false} FieldPrintsBack(value: string, start: nat, end: nat)
    requires start < end <= |value| && AllDigits(value[start..end])
    ensures Signed(Field(value, start, end), end - start) == value[start..end]
    ensures Field(value, start, end) < Power10(end - start)
  {
    DigitsPrintBack(value[start..end]);
  }

  lemma DatePrintsBack(value: string)
    requires Shaped(value)
    ensures Signed(Parsed(value).date.year, 4) == value[0..4]
    ensures Signed(Parsed(value).date.month, 2) == value[5..7]
    ensures Signed(Parsed(value).date.day, 2) == value[8..10]
    ensures 0 <= Parsed(value).date.year <= 9_999
  {
    FieldPrintsBack(value, 0, 4);
    FieldPrintsBack(value, 5, 7);
    FieldPrintsBack(value, 8, 10);
    SmallPowers();
  }

  lemma TimePrintsBack(value: string)
    requires Shaped(value)
    ensures Signed(Parsed(value).hour, 2) == value[11..13]
    ensures Signed(Parsed(value).minute, 2) == value[14..16]
    ensures Signed(Parsed(value).second, 2) == value[17..19]
  {
    FieldPrintsBack(value, 11, 13);
    FieldPrintsBack(value, 14, 16);
    FieldPrintsBack(value, 17, 19);
  }

  /** Every accepted text is the print of the time it parses to. */
  lemma ParsePrints(value: string)
    requires ValidUtcTimestamp(value)
    ensures Print(Parsed(value)) == value
    ensures 0 <= Parsed(value).date.year <= 9_999
  {
    DatePrintsBack(value);
    TimePrintsBack(value);
    ShapedIsLaid(value);
  }

  /** A printed real time beyond year 9999 is too long for the validator. */
  lemma LongYearIsRejected(t: DateTime)
    requires RealTime(t) && t.date.year > 9_999
    ensures |Print(t)| > 20
  {
    SmallPowers();
    TextLength(t.date.year, 4);
    ZerosLength(4 - |Text(t.date.year)|);
    FixedField(t.date.month, 2);
    FixedField(t.date.day, 2);
    FixedField(t.hour, 2);
    FixedField(t.minute, 2);
    FixedField(t.second, 2);
  }

  const FIRST_ACCEPTED: int := -62_167_305_600
  const LAST_ACCEPTED: int := 253_402_300_799

  lemma AcceptedSeconds(seconds: int)
    ensures FIRST_ACCEPTED <= seconds <= LAST_ACCEPTED
       <==> 0 <= FromUnix(seconds).date.year <= 9_999
  {
    YearOfDay(seconds / 86_400 + UNIX_EPOCH_Z);
  }

  lemma ShapedStartsWithDigit(value: string)
    requires Shaped(value)
    ensures IsDigit(value[0])
  {
    assert value[0..4][0] == value[0];
  }

  lemma NegativeYearIsRejected(t: DateTime)
    requires t.date.year < 0
    ensures !ValidUtcTimestamp(Print(t))
  {
    assert Print(t)[0] == '-';
    if Shaped(Print(t)) { ShapedStartsWithDigit(Print(t)); }
  }

  /** A computed time is real whenever its year is not negative. */
  lemma ComputedTimeIsReal(seconds: int)
    requires FromUnix(seconds).date.year >= 0
    ensures RealTime(FromUnix(seconds))
  {
    var z := seconds / 86_400 + UNIX_EPOCH_Z;
    YearOfDay(z);
    if z >= 0 { CivilDayNumber(z); } else { DaysOfYearZero(z); }
    AtTimeCounts(CivilFromDays(z), seconds % 86_400);
  }

  /** Over all timestamps, the printed commit time is accepted exactly in this range of seconds. */
  lemma CommitTimeAcceptedIff(seconds: int)
    ensures ValidUtcTimestamp(CommitTimeUtc(seconds)) <==> FIRST_ACCEPTED <= seconds <= LAST_ACCEPTED
    ensures ValidUtcTimestamp(CommitTimeUtc(seconds)) ==>
              |CommitTimeUtc(seconds)| == 20 && Parsed(CommitTimeUtc(seconds)) == FromUnix(seconds)
  {
    AcceptedSeconds(seconds);
    var t := FromUnix(seconds);
    if t.date.year < 0 {
      NegativeYearIsRejected(t);
    } else {
      ComputedTimeIsReal(seconds);
      if t.date.year <= 9_999 { PrintParses(t); } else { LongYearIsRejected(t); }
    }
  }

  /** Where the day count is one too many, the text is a day late; otherwise it gives the seconds back. */
  lemma CommitTimeReadsBack(seconds: int)
    requires FIRST_ACCEPTED <= seconds <= LAST_ACCEPTED
    ensures
      var z := seconds / 86_400 + UNIX_EPOCH_Z;
      ValidUtcTimestamp(CommitTimeUtc(seconds))
      && ToUnix(Parsed(CommitTimeUtc(seconds))) == seconds + if z >= -1 then 0 else 86_400
  {
    CommitTimeAcceptedIff(seconds);
    AcceptedSeconds(seconds);
    SecondsOfComputedTime(seconds);
  }

  lemma SecondsOfComputedTime(seconds: int)
    requires FromUnix(seconds).date.year >= 0
    ensures
      var z := seconds / 86_400 + UNIX_EPOCH_Z;
      ToUnix(FromUnix(seconds)) == seconds + if z >= -1 then 0 else 86_400
  {
    var z := seconds / 86_400 + UNIX_EPOCH_Z;
    YearOfDay(z);
    if z >= 0 {
      UnixRoundTrip(seconds);
    } else {
      DaysOfYearZero(z);
      EarlyDayCounts(z);
      AtTimeCounts(CivilFromDays(z), seconds % 86_400);
    }
  }

  /** A date before 1 March of year 0 is what the program computes for the day before it. */
  lemma DateOfYearZero(d: Date)
    requires Real(d) && 0 <= DayNumber(d) < 60
    ensures CivilFromDays(DayNumber(d) - 61) == d
  {
    var z := DayNumber(d) - 61;
    DaysOfYearZero(z);
    EarlyDayCounts(z);
    DayNumberIsInjective(CivilFromDays(z), d);
  }

  lemma TextOfYearZero(t: DateTime)
    requires RealTime(t) && 0 <= DayNumber(t.date) < 60
    ensures FromUnix(ToUnix(t) - 86_400) == t
  {
    var days, inDay := DayNumber(t.date) - 61 - UNIX_EPOCH_Z, t.hour * 3_600 + t.minute * 60 + t.second;
    AtTimeInverse(t, inDay);
    SplitSeconds(days, inDay);
    DateOfYearZero(t.date);
    assert ToUnix(t) - 86_400 == days * 86_400 + inDay;
  }

  /** The accepted texts are exactly the commit times that the program prints for the accepted seconds. */
  lemma AcceptedTextIsPrinted(value: string)
    ensures ValidUtcTimestamp(value)
       <==> exists seconds :: FIRST_ACCEPTED <= seconds <= LAST_ACCEPTED && CommitTimeUtc(seconds) == value
  {
    if ValidUtcTimestamp(value) {
      ParsePrints(value);
      var t := Parsed(value);
      YearOfDayNumber(t.date);
      var seconds := if DayNumber(t.date) >= 60 then ToUnix(t) else ToUnix(t) - 86_400;
      if DayNumber(t.date) >= 60 { CalendarRoundTrip(t); } else { TextOfYearZero(t); }
      AcceptedSeconds(seconds);
      assert CommitTimeUtc(seconds) == value;
    } else if seconds :| FIRST_ACCEPTED <= seconds <= LAST_ACCEPTED && CommitTimeUtc(seconds) == value {
      CommitTimeAcceptedIff(seconds);
    }
  }

  /** Second zero is the start of 1970. */
  lemma EpochText()
    ensures FromUnix(0) == DateTime(Date(1970, 1, 1), 0, 0, 0)
  {
    assert Era(719_468) == 4 && DayOfEra(719_468) == 135_080;
    assert YearOfEra(135_080) == 369 && EraDays(369) == 134_774;
  }
}
