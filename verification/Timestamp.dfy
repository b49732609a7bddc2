/** RFC 3339 text for unix seconds: `format_rfc3339` (crates/db/src/backup.rs:687-698), against a parser
    of the section 5.6 grammar that shares no code with it. */
module Timestamp {
  import opened Wrappers
  import opened Calendar

  // ---------- Integers as text ----------

  function Digit(d: int): char
    requires 0 <= d < 10
  {
    '0' + d as char
  }

  /** The decimal digits of a number. */
  function Decimal(n: nat): string {
    if n < 10 then [Digit(n)] else Decimal(n / 10) + [Digit(n % 10)]
  }

  function ZeroPad(s: string, width: nat): string
    decreases width - |s|
  {
    if |s| < width then ZeroPad("0" + s, width) else s
  }

  /** An integer under a `{:0width}` format: the sign counts towards the width. */
  function FormatInt(n: int, width: nat): string {
    if n >= 0 then ZeroPad(Decimal(n), width)
    else "-" + ZeroPad(Decimal(-n), if width == 0 then 0 else width - 1)
  }

  function Power10(w: nat): nat {
    if w == 0 then 1 else 10 * Power10(w - 1)
  }

  /** The last `w` digits of a number. */
  function Fixed(n: nat, w: nat): (s: string)
    ensures |s| == w
  {
    if w == 0 then "" else Fixed(n / 10, w - 1) + [Digit(n % 10)]
  }

  predicate IsDigit(c: char) {
    '0' <= c <= '9'
  }

  ghost predicate AllDigits(s: string) {
    forall i :: 0 <= i < |s| ==> IsDigit(s[i])
  }

  /** The number a run of digits spells. */
  function Value(s: string): int {
    if s == "" then 0 else 10 * Value(s[..|s| - 1]) + (s[|s| - 1] as int - '0' as int)
  }

  lemma {:induction false} FixedIsValue(n: nat, w: nat)
    requires n < Power10(w)
    ensures AllDigits(Fixed(n, w)) && Value(Fixed(n, w)) == n
  {
    if w > 0 {
      FixedIsValue(n / 10, w - 1);
      assert Fixed(n, w)[..w - 1] == Fixed(n / 10, w - 1);
    }
  }

  lemma {:induction false} ValueIsFixed(s: string)
    requires AllDigits(s)
    ensures 0 <= Value(s) < Power10(|s|) && Fixed(Value(s), |s|) == s
  {
    if s != "" {
      var front := s[..|s| - 1];
      ValueIsFixed(front);
      assert Value(s) / 10 == Value(front);
      assert s == front + [s[|s| - 1]];
    }
  }

  lemma {:induction false} ZeroPadIsFixed(n: nat, s: string, w: nat)
    requires |s| <= w && n < Power10(|s|) && s == Fixed(n, |s|)
    ensures ZeroPad(s, w) == Fixed(n, w)
    decreases w - |s|
  {
    if |s| < w {
      FixedGrows(n, |s|);
      ZeroPadIsFixed(n, "0" + s, w);
    }
  }

  lemma {:induction false} FixedGrows(n: nat, w: nat)
    requires n < Power10(w)
    ensures Fixed(n, w + 1) == "0" + Fixed(n, w)
  {
    if w > 0 {
      FixedGrows(n / 10, w - 1);
      assert Fixed(n / 10, w) == "0" + Fixed(n / 10, w - 1);
    } else {
      assert Fixed(0, 1) == Fixed(0, 0) + [Digit(0)];
    }
  }

  lemma {:induction false} DecimalIsFixed(n: nat, w: nat)
    requires 1 <= w && n < Power10(w)
    ensures 1 <= |Decimal(n)| <= w && n < Power10(|Decimal(n)|)
    ensures Decimal(n) == Fixed(n, |Decimal(n)|)
  {
    assert Power10(1) == 10 * Power10(0);
    if n < 10 {
      assert Fixed(n, 1) == Fixed(n / 10, 0) + [Digit(n % 10)];
    } else {
      DecimalIsFixed(n / 10, w - 1);
    }
  }

  lemma FormatIntIsFixed(n: nat, w: nat)
    requires 1 <= w && n < Power10(w)
    ensures FormatInt(n, w) == Fixed(n, w)
  {
    DecimalIsFixed(n, w);
    ZeroPadIsFixed(n, Decimal(n), w);
  }

  // ---------- String order ----------

  /** Lexicographic order on text, as `str` comparison has it. */
  predicate LexLess(s: string, t: string) {
    t != "" && (s == "" || s[0] < t[0] || (s[0] == t[0] && LexLess(s[1..], t[1..])))
  }

  lemma {:induction false} LexOfConcat(a: string, b: string, c: string, d: string)
    requires |a| == |b|
    ensures LexLess(a + c, b + d) <==> LexLess(a, b) || (a == b && LexLess(c, d))
  {
    if a == "" {
      assert a + c == c && b + d == d;
    } else {
      LexOfConcat(a[1..], b[1..], c, d);
      assert (a + c)[1..] == a[1..] + c && (b + d)[1..] == b[1..] + d;
      assert a == [a[0]] + a[1..] && b == [b[0]] + b[1..];
    }
  }

  lemma {:induction false} LexIsIrreflexive(s: string)
    ensures !LexLess(s, s)
  {
    if s != "" { LexIsIrreflexive(s[1..]); }
  }

  /** Equal-width numbers sort as text the way they sort as numbers. */
  lemma {:induction false} FixedOrder(m: nat, n: nat, w: nat)
    requires m < Power10(w) && n < Power10(w)
    ensures LexLess(Fixed(m, w), Fixed(n, w)) <==> m < n
    ensures Fixed(m, w) == Fixed(n, w) <==> m == n
  {
    FixedIsValue(m, w);
    FixedIsValue(n, w);
    if w > 0 {
      FixedOrder(m / 10, n / 10, w - 1);
      LexOfConcat(Fixed(m / 10, w - 1), Fixed(n / 10, w - 1), [Digit(m % 10)], [Digit(n % 10)]);
    }
  }

  // ---------- The timestamp ----------

  datatype Moment = Moment(date: Date, hour: int, minute: int, second: int)

  predicate ValidMoment(t: Moment) {
    ValidDate(t.date) && 0 <= t.hour < 24 && 0 <= t.minute < 60 && 0 <= t.second < 60
  }

  /** The year range RFC 3339 can write (section 5.6: `date-fullyear = 4DIGIT`). */
  predicate FourDigitYear(t: Moment) {
    0 <= t.date.year <= 9999
  }

  /** A date and a second of its day. */
  function AtTime(date: Date, time: int): Moment {
    Moment(date, time / 3600, time % 3600 / 60, time % 60)
  }

  function MomentOf(seconds: int): Moment {
    AtTime(CivilFromDays(seconds / 86_400), seconds % 86_400)
  }

  function SecondsOf(t: Moment): int
    requires ValidMoment(t)
  {
    86_400 * DayNumber(t.date) + 3600 * t.hour + 60 * t.minute + t.second
  }

  function Text(t: Moment): string {
    FormatInt(t.date.year, 4) + "-" + FormatInt(t.date.month, 2) + "-" + FormatInt(t.date.day, 2) + "T"
    + FormatInt(t.hour, 2) + ":" + FormatInt(t.minute, 2) + ":" + FormatInt(t.second, 2) + "Z"
  }

  /** `format_rfc3339`. */
  function FormatRfc3339(seconds: int): string {
    Text(MomentOf(seconds))
  }

  /** `date-time` of section 5.6 of RFC 3339, in UTC and without a fraction of a second. */
  ghost predicate Rfc3339Shape(s: string) {
    && |s| == 20
    && AllDigits(s[..4]) && s[4] == '-' && AllDigits(s[5..7]) && s[7] == '-' && AllDigits(s[8..10]) && s[10] == 'T'
    && AllDigits(s[11..13]) && s[13] == ':' && AllDigits(s[14..16]) && s[16] == ':' && AllDigits(s[17..19])
    && s[19] == 'Z'
  }

  /** What a text of that shape says, field by field. */
  ghost function ReadMoment(s: string): Moment
    requires Rfc3339Shape(s)
  {
    Moment(Date(Value(s[..4]), Value(s[5..7]), Value(s[8..10])), Value(s[11..13]), Value(s[14..16]), Value(s[17..19]))
  }

  /** The section 5.6 grammar with its section 5.7 ranges, as a reader. */
  ghost function ParseRfc3339(s: string): Option<int> {
    if Rfc3339Shape(s) && ValidMoment(ReadMoment(s)) then Some(SecondsOf(ReadMoment(s))) else None
  }

  lemma AtTimeIsValid(date: Date, time: int)
    requires ValidDate(date) && 0 <= time < 86_400
    ensures ValidMoment(AtTime(date, time)) && SecondsOf(AtTime(date, time)) == 86_400 * DayNumber(date) + time
  {
    assert time == 3600 * (time / 3600) + time % 3600 && time % 60 == time % 3600 % 60;
  }

  lemma AtTimeIsEveryMoment(t: Moment)
    requires ValidMoment(t)
    ensures var time := 3600 * t.hour + 60 * t.minute + t.second;
            0 <= time < 86_400 && AtTime(t.date, time) == t
  {}

  lemma MomentOfIsValid(seconds: int)
    ensures ValidMoment(MomentOf(seconds)) && SecondsOf(MomentOf(seconds)) == seconds
  {
    CivilFromDaysInvertsTheCount(seconds / 86_400);
    AtTimeIsValid(CivilFromDays(seconds / 86_400), seconds % 86_400);
  }

  lemma SecondsOfIsInvertible(t: Moment)
    requires ValidMoment(t)
    ensures MomentOf(SecondsOf(t)) == t
  {
    AtTimeIsEveryMoment(t);
    SplitDay(DayNumber(t.date), 3600 * t.hour + 60 * t.minute + t.second);
    CivilFromDaysIsABijection(DayNumber(t.date), t.date);
  }

  lemma SplitDay(day: int, time: int)
    requires 0 <= time < 86_400
    ensures (86_400 * day + time) / 86_400 == day && (86_400 * day + time) % 86_400 == time
  {}

  /** The text as fixed-width fields. */
  lemma TextIsFields(t: Moment)
    requires ValidMoment(t) && FourDigitYear(t)
    ensures Text(t) == Fixed(t.date.year, 4) + ("-" + (Fixed(t.date.month, 2) + ("-" + (Fixed(t.date.day, 2)
                       + ("T" + (Fixed(t.hour, 2) + (":" + (Fixed(t.minute, 2) + (":" + (Fixed(t.second, 2) + "Z"))))))))))
  {
    Powers();
    FormatIntIsFixed(t.date.year, 4);
    FormatIntIsFixed(t.date.month, 2);
    FormatIntIsFixed(t.date.day, 2);
    FormatIntIsFixed(t.hour, 2);
    FormatIntIsFixed(t.minute, 2);
    FormatIntIsFixed(t.second, 2);
  }

  lemma Powers()
    ensures Power10(1) == 10 && Power10(2) == 100 && Power10(4) == 10_000
  {
    assert Power10(1) == 10 * Power10(0);
    assert Power10(2) == 10 * Power10(1);
    assert Power10(3) == 10 * Power10(2);
    assert Power10(4) == 10 * Power10(3);
  }

  /** A field and its separator, found at a position. */
  lemma FieldAt(s: string, at: nat, field: string, sep: string, rest: string)
    requires |sep| == 1 && at <= |s| && s[at..] == field + (sep + rest)
    ensures at + |field| < |s| && s[at..at + |field|] == field && s[at + |field|] == sep[0]
    ensures s[at + |field| + 1..] == rest
  {
    assert |s[at..]| == |field| + 1 + |rest|;
    assert s[at..][..|field|] == field && s[at..][|field|..] == sep + rest;
    assert s[at + |field|..] == sep + rest;
  }

  /** Where the fields of a timestamp sit. */
  lemma Layout(y: string, mo: string, d: string, h: string, mi: string, sec: string)
    requires |y| == 4 && |mo| == 2 && |d| == 2 && |h| == 2 && |mi| == 2 && |sec| == 2
    ensures var s := y + ("-" + (mo + ("-" + (d + ("T" + (h + (":" + (mi + (":" + (sec + "Z"))))))))));
            && |s| == 20 && s[4] == '-' && s[7] == '-' && s[10] == 'T' && s[13] == ':' && s[16] == ':' && s[19] == 'Z'
            && s[..4] == y && s[5..7] == mo && s[8..10] == d && s[11..13] == h && s[14..16] == mi && s[17..19] == sec
  {
    var s4 := mi + (":" + (sec + "Z"));
    var s3 := h + (":" + s4);
    var s2 := d + ("T" + s3);
    var s1 := mo + ("-" + s2);
    var s := y + ("-" + s1);
    assert s[0..] == s;
    FieldAt(s, 0, y, "-", s1);
    FieldAt(s, 5, mo, "-", s2);
    FieldAt(s, 8, d, "T", s3);
    FieldAt(s, 11, h, ":", s4);
    FieldAt(s, 14, mi, ":", sec + "Z");
    assert sec + "Z" == sec + ("Z" + "");
    FieldAt(s, 17, sec, "Z", "");
  }

  lemma TextThenRead(t: Moment)
    requires ValidMoment(t) && FourDigitYear(t)
    ensures Rfc3339Shape(Text(t)) && ReadMoment(Text(t)) == t
  {
    TextIsFields(t);
    Powers();
    var y, mo, d := Fixed(t.date.year, 4), Fixed(t.date.month, 2), Fixed(t.date.day, 2);
    var h, mi, sec := Fixed(t.hour, 2), Fixed(t.minute, 2), Fixed(t.second, 2);
    Layout(y, mo, d, h, mi, sec);
    FixedIsValue(t.date.year, 4);
    FixedIsValue(t.date.month, 2);
    FixedIsValue(t.date.day, 2);
    FixedIsValue(t.hour, 2);
    FixedIsValue(t.minute, 2);
    FixedIsValue(t.second, 2);
  }

  /** Within four-digit years the output is RFC 3339's shape and reads back as the same second. */
  lemma FormatThenParse(seconds: int)
    requires FourDigitYear(MomentOf(seconds))
    ensures Rfc3339Shape(FormatRfc3339(seconds))
    ensures ParseRfc3339(FormatRfc3339(seconds)) == Some(seconds)
  {
    MomentOfIsValid(seconds);
    TextThenRead(MomentOf(seconds));
  }

  lemma ReadThenText(s: string)
    requires Rfc3339Shape(s) && ValidMoment(ReadMoment(s))
    ensures FourDigitYear(ReadMoment(s)) && Text(ReadMoment(s)) == s
  {
    Powers();
    ValueIsFixed(s[..4]);
    ValueIsFixed(s[5..7]);
    ValueIsFixed(s[8..10]);
    ValueIsFixed(s[11..13]);
    ValueIsFixed(s[14..16]);
    ValueIsFixed(s[17..19]);
    TextIsFields(ReadMoment(s));
    Pieces(s);
  }

  lemma Pieces(s: string)
    requires |s| == 20
    ensures s == s[..4] + ([s[4]] + (s[5..7] + ([s[7]] + (s[8..10] + ([s[10]] + (s[11..13] + ([s[13]] + (s[14..16]
                 + ([s[16]] + (s[17..19] + [s[19]]))))))))))
  {}

  /** Every text the grammar accepts is the output for the second it names, and for no other. */
  lemma ParseThenFormat(s: string)
    requires ParseRfc3339(s).Some?
    ensures FormatRfc3339(ParseRfc3339(s).value) == s
    ensures FourDigitYear(MomentOf(ParseRfc3339(s).value))
  {
    SecondsOfIsInvertible(ReadMoment(s));
    ReadThenText(s);
  }

  /** The fields in order of weight. */
  predicate Before(s: Moment, t: Moment) {
    || Earlier(s.date, t.date)
    || (s.date == t.date && (s.hour < t.hour || (s.hour == t.hour && (s.minute < t.minute
                                                                      || (s.minute == t.minute && s.second < t.second)))))
  }

  lemma {:induction false} FieldOrder(m: nat, n: nat, w: nat, sep: string, c: string, d: string)
    requires m < Power10(w) && n < Power10(w) && |sep| == 1
    ensures LexLess(Fixed(m, w) + (sep + c), Fixed(n, w) + (sep + d)) <==> m < n || (m == n && LexLess(c, d))
  {
    FixedOrder(m, n, w);
    LexOfConcat(Fixed(m, w), Fixed(n, w), sep + c, sep + d);
    LexOfConcat(sep, sep, c, d);
    LexIsIrreflexive(sep);
  }

  lemma TextOrder(s: Moment, t: Moment)
    requires ValidMoment(s) && FourDigitYear(s) && ValidMoment(t) && FourDigitYear(t)
    ensures LexLess(Text(s), Text(t)) <==> Before(s, t)
  {
    Powers();
    TextIsFields(s);
    TextIsFields(t);
    var s1, t1 := Fixed(s.second, 2) + "Z", Fixed(t.second, 2) + "Z";
    var s2, t2 := Fixed(s.minute, 2) + (":" + s1), Fixed(t.minute, 2) + (":" + t1);
    var s3, t3 := Fixed(s.hour, 2) + (":" + s2), Fixed(t.hour, 2) + (":" + t2);
    var s4, t4 := Fixed(s.date.day, 2) + ("T" + s3), Fixed(t.date.day, 2) + ("T" + t3);
    var s5, t5 := Fixed(s.date.month, 2) + ("-" + s4), Fixed(t.date.month, 2) + ("-" + t4);
    FixedOrder(s.second, t.second, 2);
    LexOfConcat(Fixed(s.second, 2), Fixed(t.second, 2), "Z", "Z");
    LexIsIrreflexive("Z");
    FieldOrder(s.minute, t.minute, 2, ":", s1, t1);
    FieldOrder(s.hour, t.hour, 2, ":", s2, t2);
    FieldOrder(s.date.day, t.date.day, 2, "T", s3, t3);
    FieldOrder(s.date.month, t.date.month, 2, "-", s4, t4);
    FieldOrder(s.date.year, t.date.year, 4, "-", s5, t5);
  }

  lemma AtTimeOrder(date: Date, s: int, t: int)
    requires 0 <= s < t < 86_400
    ensures Before(AtTime(date, s), AtTime(date, t))
  {
    assert s == 3600 * (s / 3600) + s % 3600 && t == 3600 * (t / 3600) + t % 3600;
    assert s % 3600 == 60 * (s % 3600 / 60) + s % 60 && t % 3600 == 60 * (t % 3600 / 60) + t % 60;
  }

  lemma AcrossDays(s: Date, t: Date, m: int, n: int)
    requires Earlier(s, t)
    ensures Before(AtTime(s, m), AtTime(t, n))
  {}

  lemma DayAndTime(a: int, b: int)
    requires a < b
    ensures a / 86_400 < b / 86_400 || (a / 86_400 == b / 86_400 && a % 86_400 < b % 86_400)
  {}

  lemma MomentOrder(a: int, b: int)
    requires a < b
    ensures Before(MomentOf(a), MomentOf(b))
  {
    DayAndTime(a, b);
    var m, n := a / 86_400, b / 86_400;
    if m < n {
      CivilFromDaysIsMonotone(m, n);
      AcrossDays(CivilFromDays(m), CivilFromDays(n), a % 86_400, b % 86_400);
    } else {
      AtTimeOrder(CivilFromDays(m), a % 86_400, b % 86_400);
    }
  }

  /** Text order, for two moments known to be in the order of two numbers. */
  lemma TextOrderFollows(a: int, b: int, s: Moment, t: Moment)
    requires ValidMoment(s) && FourDigitYear(s) && ValidMoment(t) && FourDigitYear(t)
    requires a < b ==> Before(s, t)
    requires b < a ==> Before(t, s)
    requires a == b ==> s == t
    ensures LexLess(Text(s), Text(t)) <==> a < b
  {
    TextOrder(s, t);
  }

  /** Section 5.1 of RFC 3339: sorting the texts sorts the moments. */
  lemma TextOrderIsTimeOrder(a: int, b: int)
    requires FourDigitYear(MomentOf(a)) && FourDigitYear(MomentOf(b))
    ensures LexLess(FormatRfc3339(a), FormatRfc3339(b)) <==> a < b
  {
    MomentOfIsValid(a);
    MomentOfIsValid(b);
    if a < b { MomentOrder(a, b); }
    if b < a { MomentOrder(b, a); }
    TextOrderFollows(a, b, MomentOf(a), MomentOf(b));
  }

  // ---------- Outside four digits ----------

  /** A year before 0000 has its sign within the four characters. */
  lemma NegativeYearsAreSigned(year: int)
    requires year < 0
    ensures -1000 < year ==> FormatInt(year, 4) == "-" + Fixed(-year, 3)
    ensures |FormatInt(year, 4)| >= 4 && FormatInt(year, 4)[0] == '-'
  {
    Powers();
    assert Power10(3) == 1000;
    if -1000 < year {
      DecimalIsFixed(-year, 3);
      ZeroPadIsFixed(-year, Decimal(-year), 3);
    }
    PaddedLength(Decimal(-year), 3);
  }

  lemma {:induction false} PaddedLength(s: string, w: nat)
    ensures |ZeroPad(s, w)| >= w
    decreases w - |s|
  {
    if |s| < w { PaddedLength("0" + s, w); }
  }

  /** The output has the shape of RFC 3339 exactly in four-digit years. */
  lemma OnlyFourDigitYearsFit(seconds: int)
    ensures Rfc3339Shape(FormatRfc3339(seconds)) <==> FourDigitYear(MomentOf(seconds))
  {
    if FourDigitYear(MomentOf(seconds)) { FormatThenParse(seconds); } else { OtherYearsDoNotFit(MomentOf(seconds)); }
  }

  lemma OtherYearsDoNotFit(t: Moment)
    requires !FourDigitYear(t)
    ensures !Rfc3339Shape(Text(t))
  {
    var s := Text(t);
    if t.date.year < 0 {
      NegativeYearsAreSigned(t.date.year);
      assert s[0] == '-' && s[..4][0] == s[0];
    } else {
      LongYear(t);
    }
  }

  // ---------- Beyond year 9999 ----------

  /** The four leading digits of a year of four digits or more. */
  function LeadingFour(year: nat): nat {
    if year < 10_000 then year else LeadingFour(year / 10)
  }

  lemma {:induction false} DecimalLeads(n: nat)
    requires n >= 1000
    ensures 1000 <= LeadingFour(n) < 10_000 && |Decimal(n)| >= 4 && Decimal(n)[..4] == Fixed(LeadingFour(n), 4)
    ensures n >= 10_000 ==> |Decimal(n)| >= 5 && IsDigit(Decimal(n)[4])
  {
    if n < 10_000 {
      Powers();
      DecimalIsFixed(n, 4);
      assert |Decimal(n)| == 4 by { assert n >= Power10(3); ShortIsSmall(n, |Decimal(n)|); }
    } else {
      DecimalLeads(n / 10);
      var front, last := Decimal(n / 10), [Digit(n % 10)];
      assert (front + last)[..4] == front[..4];
      if n / 10 < 10_000 {
        Powers();
        DecimalIsFixed(n / 10, 4);
      }
    }
  }

  lemma ShortIsSmall(n: nat, w: nat)
    requires n < Power10(w) && w <= 4 && n >= 1000
    ensures w == 4
  {
    Powers();
    assert Power10(1) == 10 && Power10(2) == 100 && Power10(3) == 1000;
    assert Power10(0) == 1;
  }

  /** A year of five digits or more is written in as many. */
  lemma LongYear(t: Moment)
    requires t.date.year >= 10_000
    ensures |Text(t)| >= 5 && Text(t)[..4] == Fixed(LeadingFour(t.date.year), 4) && IsDigit(Text(t)[4])
    ensures LeadingFour(t.date.year) < Power10(4)
  {
    Powers();
    DecimalLeads(t.date.year);
    assert FormatInt(t.date.year, 4) == Decimal(t.date.year);
    assert Text(t)[..4] == Decimal(t.date.year)[..4];
  }

  lemma LongYearOrder(s: Moment, t: Moment)
    requires ValidMoment(s) && FourDigitYear(s) && t.date.year >= 10_000
    ensures LexLess(Text(t), Text(s)) <==> LeadingFour(t.date.year) < s.date.year
    ensures LexLess(Text(s), Text(t)) <==> s.date.year <= LeadingFour(t.date.year)
  {
    Powers();
    LongYear(t);
    TextIsFields(s);
    var m, n := s.date.year, LeadingFour(t.date.year);
    var x, y := Text(s), Text(t);
    assert x[..4] == Fixed(m, 4) && x[4..][0] == '-' && y[4..][0] == y[4];
    assert x == Fixed(m, 4) + x[4..] && y == Fixed(n, 4) + y[4..];
    FixedOrder(m, n, 4);
    FixedOrder(n, m, 4);
    LexOfConcat(Fixed(m, 4), Fixed(n, 4), x[4..], y[4..]);
    LexOfConcat(Fixed(n, 4), Fixed(m, 4), y[4..], x[4..]);
  }

  /** The range matters. A moment of a year beyond 9999 is later than any of a four-digit year, and its text sorts
      before exactly those whose year is greater than its own four leading digits. */
  lemma LongYearsSortByTheirLeadingDigits(a: int, b: int)
    requires FourDigitYear(MomentOf(a)) && MomentOf(b).date.year >= 10_000
    ensures a < b
    ensures LexLess(FormatRfc3339(b), FormatRfc3339(a)) <==> LeadingFour(MomentOf(b).date.year) < MomentOf(a).date.year
    ensures LexLess(FormatRfc3339(a), FormatRfc3339(b)) <==> MomentOf(a).date.year <= LeadingFour(MomentOf(b).date.year)
  {
    MomentOfIsValid(a);
    if b < a { MomentOrder(b, a); }
    LongYearFollows(a, b, MomentOf(a), MomentOf(b));
  }

  /** The same for two moments known to be in the order of two numbers. */
  lemma LongYearFollows(a: int, b: int, s: Moment, t: Moment)
    requires ValidMoment(s) && FourDigitYear(s) && t.date.year >= 10_000
    requires b < a ==> Before(t, s)
    requires a == b ==> s == t
    ensures a < b
    ensures LexLess(Text(t), Text(s)) <==> LeadingFour(t.date.year) < s.date.year
    ensures LexLess(Text(s), Text(t)) <==> s.date.year <= LeadingFour(t.date.year)
  {
    LongYearOrder(s, t);
  }
}
