/** InvoiceIdGenerator: ids of the form INV-yyyyMMdd-HHmmss-RRR, built from the wall
    clock and a random suffix, and retried against the existing invoice ids. The clock
    reading and the random suffix are inputs here. */
module InvoiceIds {
  import opened Outcomes

  const IdPrefix := "INV"
  const MaxRetryAttempts := 10

  /** The fields of a LocalDateTime reading that the id uses. */
  datatype Clock = Clock(year: int, month: int, day: int, hour: int, minute: int, second: int)

  predicate ValidClock(c: Clock)
  {
    1 <= c.month <= 12 && 1 <= c.day <= 31 && 0 <= c.hour <= 23 && 0 <= c.minute <= 59 && 0 <= c.second <= 59
  }

  /** One attempt's inputs: the clock reading and the value of nextInt(100, 1000). */
  datatype Draw = Draw(clock: Clock, suffix: int)

  predicate ValidDraw(d: Draw)
  {
    ValidClock(d.clock) && 100 <= d.suffix < 1000
  }

  datatype IdError = AttemptsExhausted | IdAlreadyExists(id: string)

  // ---------------------------------------------------------------------------
  // Decimal text

  predicate IsDigit(c: char)
  {
    '0' <= c <= '9'
  }

  predicate AllDigits(s: string)
  {
    forall k | 0 <= k < |s| :: IsDigit(s[k])
  }

  function DigitChar(d: int): (c: char)
    requires 0 <= d <= 9
    ensures IsDigit(c) && c as int - '0' as int == d
  {
    ('0' as int + d) as char
  }

  /** The decimal digits of n, without leading zeros. */
  function Digits(n: nat): (s: string)
    ensures |s| >= 1 && AllDigits(s)
    decreases n
  {
    if n < 10 then [DigitChar(n)] else Digits(n / 10) + [DigitChar(n % 10)]
  }

  /** The number a digit string denotes. */
  function Value(s: string): nat
    requires AllDigits(s)
  {
    if s == [] then 0 else Value(s[..|s| - 1]) * 10 + (s[|s| - 1] as int - '0' as int)
  }

  function Zeros(n: nat): (s: string)
    ensures |s| == n && AllDigits(s)
    ensures forall k | 0 <= k < n :: s[k] == '0'
  {
    if n == 0 then [] else Zeros(n - 1) + ['0']
  }

  /** %0wd for a non-negative value: the digits, padded on the left with zeros.
      The digits are ASCII, as in a default locale whose zero digit is '0'. */
  function ZeroPad(n: nat, width: nat): (s: string)
    ensures AllDigits(s)
    ensures |s| == if |Digits(n)| < width then width else |Digits(n)|
  {
    var d := Digits(n);
    if |d| < width then Zeros(width - |d|) + d else d
  }

  function Pow10(w: nat): nat
  {
    if w == 0 then 1 else 10 * Pow10(w - 1)
  }

  lemma {:induction false} ValueOfDigits(n: nat)
    ensures Value(Digits(n)) == n
    decreases n
  {
    if n >= 10 {
      ValueOfDigits(n / 10);
      var s := Digits(n);
      assert s[..|s| - 1] == Digits(n / 10);
    }
  }

  lemma {:induction false} DigitsFit(n: nat, w: nat)
    requires w >= 1
    ensures |Digits(n)| <= w <==> n < Pow10(w)
    decreases n
  {
    if n >= 10 {
      if w == 1 {
        assert Pow10(1) == 10;
        assert |Digits(n)| >= 2 by { assert |Digits(n)| == |Digits(n / 10)| + 1; }
      } else {
        DigitsFit(n / 10, w - 1);
      }
    } else {
      PowAtLeastTen(w);
    }
  }

  lemma {:induction false} PowAtLeastTen(w: nat)
    requires w >= 1
    ensures Pow10(w) >= 10
  {
    if w > 1 {
      PowAtLeastTen(w - 1);
    }
  }

  lemma {:induction false} ValueIgnoresLeadingZeros(z: nat, s: string)
    requires AllDigits(s)
    ensures Value(Zeros(z) + s) == Value(s)
    decreases |s|
  {
    if s == [] {
      assert Zeros(z) + s == Zeros(z);
      ValueOfZeros(z);
    } else {
      var t := Zeros(z) + s;
      assert t[..|t| - 1] == Zeros(z) + s[..|s| - 1];
      ValueIgnoresLeadingZeros(z, s[..|s| - 1]);
    }
  }

  lemma {:induction false} ValueOfZeros(z: nat)
    ensures Value(Zeros(z)) == 0
  {
    if z > 0 {
      assert Zeros(z)[..z - 1] == Zeros(z - 1);
      ValueOfZeros(z - 1);
    }
  }

  /** %0wd reads back as the value, and is exactly w characters when the value fits. */
  lemma ZeroPadRoundTrip(n: nat, w: nat)
    requires w >= 1
    ensures Value(ZeroPad(n, w)) == n
    ensures |ZeroPad(n, w)| == w <==> n < Pow10(w)
  {
    ZeroPadValue(n, w);
    DigitsFit(n, w);
  }

  lemma ZeroPadValue(n: nat, w: nat)
    ensures Value(ZeroPad(n, w)) == n
  {
    ValueOfDigits(n);
    if |Digits(n)| < w {
      ValueIgnoresLeadingZeros(w - |Digits(n)|, Digits(n));
    }
  }

  // ---------------------------------------------------------------------------
  // generateInvoiceId

  /** The year-of-era that pattern letter y prints. */
  function EraYear(year: int): nat
  {
    if year >= 1 then year else 1 - year
  }

  /** yyyy: at least four digits, with a '+' once the year needs more. */
  function YearText(year: int): (s: string)
    ensures |s| == 4 && AllDigits(s) <==> EraYear(year) < 10000
  {
    var y := EraYear(year);
    ZeroPadRoundTrip(y, 4);
    if y > 9999 then "+" + Digits(y) else ZeroPad(y, 4)
  }

  /** yyyyMMdd of the clock reading. */
  function DatePart(c: Clock): string
    requires ValidClock(c)
  {
    YearText(c.year) + ZeroPad(c.month, 2) + ZeroPad(c.day, 2)
  }

  /** HHmmss of the clock reading, as %02d%02d%02d. */
  function TimePart(c: Clock): string
    requires ValidClock(c)
  {
    ZeroPad(c.hour, 2) + ZeroPad(c.minute, 2) + ZeroPad(c.second, 2)
  }

  /** %03d of the suffix. */
  function SuffixPart(suffix: nat): string
  {
    ZeroPad(suffix, 3)
  }

  /** %s-%s-%s-%03d with the prefix first. */
  function Assemble(date: string, time: string, suffix: string): string
  {
    IdPrefix + "-" + date + "-" + time + "-" + suffix
  }

  /** generateInvoiceId for one clock reading and one suffix. */
  function GenerateInvoiceId(d: Draw): string
    requires ValidDraw(d)
  {
    Assemble(DatePart(d.clock), TimePart(d.clock), SuffixPart(d.suffix))
  }

  // ---------------------------------------------------------------------------
  // isValidInvoiceIdFormat

  /** Java's String.trim().isEmpty(): every character is at most a space. */
  predicate IsBlank(s: string)
  {
    forall k | 0 <= k < |s| :: s[k] <= ' '
  }

  predicate DigitSlot(k: int)
  {
    4 <= k < 12 || 13 <= k < 19 || 20 <= k < 23
  }

  /** The whole string matches ^INV-\d{8}-\d{6}-\d{3}$ (\d is an ASCII digit). */
  predicate MatchesIdPattern(s: string)
  {
    && |s| == 23
    && s[0] == 'I' && s[1] == 'N' && s[2] == 'V' && s[3] == '-'
    && s[12] == '-' && s[19] == '-'
    && forall k | 0 <= k < 23 && DigitSlot(k) :: IsDigit(s[k])
  }

  /** isValidInvoiceIdFormat; None stands for null. */
  predicate IsValidInvoiceIdFormat(id: Option<string>)
  {
    if id.None? || IsBlank(id.value) then false else MatchesIdPattern(id.value)
  }

  /** The format as three digit fields between fixed text. */
  predicate FieldsShape(s: string)
  {
    |s| == 23 && s[..4] == "INV-" && AllDigits(s[4..12]) && s[12] == '-'
    && AllDigits(s[13..19]) && s[19] == '-' && AllDigits(s[20..])
  }

  /** The blank guard adds nothing to the pattern, and the pattern is the three
      digit fields of 8, 6 and 3 characters between "INV-", "-" and "-". */
  lemma ValidFormatIffFields(s: string)
    ensures IsValidInvoiceIdFormat(Some(s)) <==> FieldsShape(s)
    ensures !IsValidInvoiceIdFormat(None)
  {
    if FieldsShape(s) {
      assert s[..4][0] == 'I' && s[..4][1] == 'N' && s[..4][2] == 'V' && s[..4][3] == '-';
      forall k | 0 <= k < 23 && DigitSlot(k) ensures IsDigit(s[k]) {
        if k < 12 { assert s[k] == s[4..12][k - 4]; }
        else if k < 19 { assert s[k] == s[13..19][k - 13]; }
        else { assert s[k] == s[20..][k - 20]; }
      }
      assert s[0] > ' ';
    }
    if MatchesIdPattern(s) {
      assert s[..4] == "INV-";
      assert AllDigits(s[4..12]) by { forall k | 0 <= k < 8 ensures IsDigit(s[4..12][k]) { assert DigitSlot(k + 4); } }
      assert AllDigits(s[13..19]) by { forall k | 0 <= k < 6 ensures IsDigit(s[13..19][k]) { assert DigitSlot(k + 13); } }
      assert AllDigits(s[20..]) by { forall k | 0 <= k < 3 ensures IsDigit(s[20..][k]) { assert DigitSlot(k + 20); } }
    }
  }

  lemma ConcatDigits(a: string, b: string)
    requires AllDigits(a) && AllDigits(b)
    ensures AllDigits(a + b)
  {
    forall k | 0 <= k < |a + b| ensures IsDigit((a + b)[k]) {
      if k >= |a| { assert (a + b)[k] == b[k - |a|]; }
    }
  }

  /** Where the three fields sit in an assembled id. */
  lemma AssembleSlices(date: string, time: string, suffix: string)
    requires |date| == 8 && |time| == 6 && |suffix| == 3
    ensures var s := Assemble(date, time, suffix);
      |s| == 23 && s[..4] == "INV-" && s[4..12] == date && s[12] == '-'
      && s[13..19] == time && s[19] == '-' && s[20..] == suffix
  {
    var s := Assemble(date, time, suffix);
    assert s == "INV-" + date + "-" + time + "-" + suffix;
  }

  /** An assembled id whose fields are all digits of lengths 8, 6 and 3, and only
      such an id, has the valid format. */
  lemma AssembleValid(date: string, time: string, suffix: string)
    ensures IsValidInvoiceIdFormat(Some(Assemble(date, time, suffix))) <==>
      |date| == 8 && |time| == 6 && |suffix| == 3 && AllDigits(date) && AllDigits(time) && AllDigits(suffix)
  {
    var s := Assemble(date, time, suffix);
    ValidFormatIffFields(s);
    if FieldsShape(s) {
      assert s == "INV-" + date + "-" + time + "-" + suffix;
      assert s[4 + |date|] == '-';
      assert s[5 + |date| + |time|] == '-';
      DigitsBetweenDashes(s);
    }
    if |date| == 8 && |time| == 6 && |suffix| == 3 {
      AssembleSlices(date, time, suffix);
    }
  }

  /** After the prefix, a well-formed id has a digit everywhere but at 12 and 19. */
  lemma DigitsBetweenDashes(s: string)
    requires FieldsShape(s)
    ensures forall k | 4 <= k < 23 && k != 12 && k != 19 :: IsDigit(s[k])
  {
    forall k | 4 <= k < 23 && k != 12 && k != 19 ensures IsDigit(s[k]) {
      if k < 12 { assert s[4..12][k - 4] == s[k]; }
      else if k < 19 { assert s[13..19][k - 13] == s[k]; }
      else { assert s[20..][k - 20] == s[k]; }
    }
  }

  lemma DatePartShape(c: Clock)
    requires ValidClock(c)
    ensures |DatePart(c)| == 8 && AllDigits(DatePart(c)) <==> EraYear(c.year) < 10000
  {
    var y, mo, dd := YearText(c.year), ZeroPad(c.month, 2), ZeroPad(c.day, 2);
    ZeroPadRoundTrip(c.month, 2);
    ZeroPadRoundTrip(c.day, 2);
    assert Pow10(2) == 100;
    if EraYear(c.year) < 10000 {
      ConcatDigits(y, mo);
      ConcatDigits(y + mo, dd);
    } else if |DatePart(c)| == 8 {
      assert |y| == 4;
      var k :| 0 <= k < 4 && !IsDigit(y[k]);
      assert DatePart(c)[k] == y[k];
    }
  }

  lemma TimePartShape(c: Clock)
    requires ValidClock(c)
    ensures |TimePart(c)| == 6 && AllDigits(TimePart(c))
  {
    ZeroPadRoundTrip(c.hour, 2);
    ZeroPadRoundTrip(c.minute, 2);
    ZeroPadRoundTrip(c.second, 2);
    assert Pow10(2) == 100;
    ConcatDigits(ZeroPad(c.hour, 2), ZeroPad(c.minute, 2));
    ConcatDigits(ZeroPad(c.hour, 2) + ZeroPad(c.minute, 2), ZeroPad(c.second, 2));
  }

  /** A generated id has the valid format exactly when the year has at most four
      digits; a suffix from nextInt(100, 1000) always has three. */
  lemma GeneratedIdValid(d: Draw)
    requires ValidDraw(d)
    ensures IsValidInvoiceIdFormat(Some(GenerateInvoiceId(d))) <==> EraYear(d.clock.year) < 10000
  {
    DatePartShape(d.clock);
    TimePartShape(d.clock);
    ZeroPadRoundTrip(d.suffix, 3);
    assert Pow10(3) == 1000;
    AssembleValid(DatePart(d.clock), TimePart(d.clock), SuffixPart(d.suffix));
  }

  /** The number written in s[lo..hi], or -1 when that is not a digit string. */
  function FieldValue(s: string, lo: int, hi: int): int
  {
    if 0 <= lo <= hi <= |s| && AllDigits(s[lo..hi]) then Value(s[lo..hi]) else -1
  }

  /** The fields of a generated id read back as the clock reading and the suffix. */
  lemma GeneratedIdRoundTrip(d: Draw)
    requires ValidDraw(d) && 1 <= d.clock.year <= 9999
    ensures |GenerateInvoiceId(d)| == 23
    ensures var s := GenerateInvoiceId(d);
      && FieldValue(s, 4, 8) == d.clock.year && FieldValue(s, 8, 10) == d.clock.month
      && FieldValue(s, 10, 12) == d.clock.day && FieldValue(s, 13, 15) == d.clock.hour
      && FieldValue(s, 15, 17) == d.clock.minute && FieldValue(s, 17, 19) == d.clock.second
      && FieldValue(s, 20, 23) == d.suffix
  {
    var c := d.clock;
    var date, time, suffix := DatePart(c), TimePart(c), SuffixPart(d.suffix);
    DateFieldsRoundTrip(c, date);
    TimeFieldsRoundTrip(c, time);
    ZeroPadRoundTrip(d.suffix, 3);
    assert Pow10(3) == 1000;
    AssembledFields(date, time, suffix);
  }

  /** Each field of an assembled id is the matching slice of its parts. */
  lemma AssembledFields(date: string, time: string, suffix: string)
    requires |date| == 8 && |time| == 6 && |suffix| == 3
    requires AllDigits(date) && AllDigits(time) && AllDigits(suffix)
    ensures var s := Assemble(date, time, suffix);
      && FieldValue(s, 4, 8) == Value(date[..4]) && FieldValue(s, 8, 10) == Value(date[4..6])
      && FieldValue(s, 10, 12) == Value(date[6..]) && FieldValue(s, 13, 15) == Value(time[..2])
      && FieldValue(s, 15, 17) == Value(time[2..4]) && FieldValue(s, 17, 19) == Value(time[4..])
      && FieldValue(s, 20, 23) == Value(suffix)
  {
    var s := Assemble(date, time, suffix);
    AssembleSlices(date, time, suffix);
    assert s[4..8] == date[..4];
    assert s[8..10] == date[4..6];
    assert s[10..12] == date[6..];
    assert s[13..15] == time[..2];
    assert s[15..17] == time[2..4];
    assert s[17..19] == time[4..];
    assert s[20..23] == suffix;
  }

  lemma DateFieldsRoundTrip(c: Clock, date: string)
    requires ValidClock(c) && 1 <= c.year <= 9999 && date == DatePart(c)
    ensures |date| == 8 && AllDigits(date)
    ensures Value(date[..4]) == c.year && Value(date[4..6]) == c.month && Value(date[6..]) == c.day
  {
    DatePartShape(c);
    ZeroPadRoundTrip(c.year, 4);
    ZeroPadRoundTrip(c.month, 2);
    ZeroPadRoundTrip(c.day, 2);
    assert Pow10(2) == 100 && Pow10(4) == 10000;
    assert date[..4] == ZeroPad(c.year, 4);
    assert date[4..6] == ZeroPad(c.month, 2);
    assert date[6..] == ZeroPad(c.day, 2);
  }

  lemma TimeFieldsRoundTrip(c: Clock, time: string)
    requires ValidClock(c) && time == TimePart(c)
    ensures |time| == 6 && AllDigits(time)
    ensures Value(time[..2]) == c.hour && Value(time[2..4]) == c.minute && Value(time[4..]) == c.second
  {
    TimePartShape(c);
    ZeroPadRoundTrip(c.hour, 2);
    ZeroPadRoundTrip(c.minute, 2);
    ZeroPadRoundTrip(c.second, 2);
    assert Pow10(2) == 100;
    assert time[..2] == ZeroPad(c.hour, 2);
    assert time[2..4] == ZeroPad(c.minute, 2);
    assert time[4..] == ZeroPad(c.second, 2);
  }

  // ---------------------------------------------------------------------------
  // generateUniqueInvoiceId and validateInvoiceIdUniqueness

  /** validateInvoiceIdUniqueness against the set of stored invoice ids. */
  function ValidateInvoiceIdUniqueness(id: string, existing: set<string>): (r: Outcome<IdError>)
    ensures r.Pass? <==> id !in existing
    ensures r.Fail? ==> r.error == IdAlreadyExists(id)
  {
    if id in existing then Fail(IdAlreadyExists(id)) else Pass
  }

  /** The ids the attempts generate: draws[k] is what the clock and the random source
      give on attempt k. */
  function Attempts(draws: seq<Draw>): (ids: seq<string>)
    requires |draws| >= MaxRetryAttempts
    requires forall k | 0 <= k < |draws| :: ValidDraw(draws[k])
    ensures |ids| == MaxRetryAttempts
  {
    seq(MaxRetryAttempts, k requires 0 <= k < MaxRetryAttempts => GenerateInvoiceId(draws[k]))
  }

  /** The index of the first id from i on that is not stored yet. */
  function FirstFresh(ids: seq<string>, existing: set<string>, i: nat): (r: Option<nat>)
    requires i <= |ids|
    ensures r.Some? ==> i <= r.value < |ids|
    decreases |ids| - i
  {
    if i == |ids| then None
    else if ids[i] !in existing then Some(i)
    else FirstFresh(ids, existing, i + 1)
  }

  /** The first fresh index is fresh, every earlier one collides, and there is none
      exactly when every id collides. */
  lemma {:induction false} FirstFreshCorrect(ids: seq<string>, existing: set<string>, i: nat)
    requires i <= |ids|
    ensures FirstFresh(ids, existing, i).None? <==> forall k | i <= k < |ids| :: ids[k] in existing
    ensures FirstFresh(ids, existing, i).Some? ==>
      var k := FirstFresh(ids, existing, i).value;
      i <= k < |ids| && ids[k] !in existing && forall j | i <= j < k :: ids[j] in existing
    decreases |ids| - i
  {
    if i < |ids| && ids[i] in existing {
      FirstFreshCorrect(ids, existing, i + 1);
    }
  }

  /** generateUniqueInvoiceId: the first attempt whose id is not stored yet; after
      MaxRetryAttempts collisions, an error. */
  method GenerateUniqueInvoiceId(draws: seq<Draw>, existing: set<string>) returns (r: Result<string, IdError>)
    requires |draws| >= MaxRetryAttempts
    requires forall k | 0 <= k < |draws| :: ValidDraw(draws[k])
    ensures var ids := Attempts(draws);
      r == match FirstFresh(ids, existing, 0)
           case None => Failure(AttemptsExhausted)
           case Some(k) => Success(ids[k])
  {
    var ids := Attempts(draws);
    for attempt := 0 to MaxRetryAttempts
      invariant FirstFresh(ids, existing, 0) == FirstFresh(ids, existing, attempt)
    {
      var id := ids[attempt];
      if id !in existing {
        return Success(id);
      }
    }
    return Failure(AttemptsExhausted);
  }

  /** Attempt k generates its id from the k-th clock reading and suffix. */
  lemma AttemptGenerates(draws: seq<Draw>, k: nat)
    requires |draws| >= MaxRetryAttempts && k < MaxRetryAttempts
    requires forall j | 0 <= j < |draws| :: ValidDraw(draws[j])
    ensures |Attempts(draws)| == MaxRetryAttempts && Attempts(draws)[k] == GenerateInvoiceId(draws[k])
  {
  }

  /** With draws from the real clock and nextInt(100, 1000), whatever is returned is a
      well-formed id. */
  lemma UniqueIdWellFormed(draws: seq<Draw>, k: nat)
    requires k < |draws| && ValidDraw(draws[k]) && EraYear(draws[k].clock.year) < 10000
    ensures IsValidInvoiceIdFormat(Some(GenerateInvoiceId(draws[k])))
  {
    GeneratedIdValid(draws[k]);
  }
}
