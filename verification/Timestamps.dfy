/** The time stamp string `yyyy-MM-dd-HH-mm-ss` (src/backup_export.rs) and how its
    lexicographic order relates to time. */
module Timestamps {
  import opened Order
  import opened Calendar

  function Digit(d: nat): char
    requires d < 10
  {
    ('0' as int + d) as char
  }

  function Decimal(n: nat): (s: string)
    ensures s != []
  {
    if n < 10 then [Digit(n)] else Decimal(n / 10) + [Digit(n % 10)]
  }

  /** Decimal digits, filled up with zeros on the left to at least `width`. */
  function ZeroPadded(n: nat, width: nat): string
  {
    var s := Decimal(n);
    if |s| < width then seq(width - |s|, _ => '0') + s else s
  }

  function FormatUtc(secs: nat): string
  {
    var date := CivilFromDays(secs / 86400);
    var sod := secs % 86400;
    CivilIsNthDay(secs / 86400);
    YearNotBefore1970(secs / 86400);
    ZeroPadded(date.year, 4) + "-" + (ZeroPadded(date.month, 2) + "-" + (ZeroPadded(date.day, 2) + "-" +
    (ZeroPadded(sod / 3600, 2) + "-" + (ZeroPadded(sod % 3600 / 60, 2) + "-" + ZeroPadded(sod % 60, 2)))))
  }

  // -------------------------------------------------------- dates are ordered

  predicate DateLess(d: Date, e: Date)
  {
    d.year < e.year || (d.year == e.year && (d.month < e.month || (d.month == e.month && d.day < e.day)))
  }

  lemma {:induction false} DaysAscend(m: nat, n: nat)
    requires m < n
    ensures DateLess(NthDay(m), NthDay(n))
  {
    hide CivilFromDays;
    CivilIsNthDay(n - 1);
    if m < n - 1 {
      DaysAscend(m, n - 1);
    }
  }

  lemma YearNotBefore1970(n: nat)
    ensures CivilFromDays(n).year >= 1970
  {
    hide CivilFromDays;
    CivilIsNthDay(n);
    if n > 0 {
      DaysAscend(0, n);
    }
  }

  const LIMIT := 253402300800

  lemma FirstDayOfYear10000()
    ensures CivilFromDays(2932897) == Date(10000, 1, 1) && 2932897 * 86400 == LIMIT
    ensures CivilFromDays(2932896) == Date(9999, 12, 31)
  {
    hide CivilFromDays;
    assert 146097 * 24 + YearStart(399) + 306 - 719468 == 2932897;
    CivilInEra(24, 399, 306);
    CivilInEra(24, 399, 305);
  }

  /** Four-digit years are exactly those of times below the limit. */
  lemma YearsBelowLimit(n: nat)
    ensures CivilFromDays(n).year <= 9999 <==> n < 2932897
  {
    hide CivilFromDays;
    FirstDayOfYear10000();
    CivilIsNthDay(n);
    CivilIsNthDay(2932897);
    if n < 2932897 {
      DaysAscend(n, 2932897);
    } else if n > 2932897 {
      DaysAscend(2932897, n);
    }
  }

  // ------------------------------------------- fixed-width decimals are ordered

  function Power10(w: nat): nat
  {
    if w == 0 then 1 else 10 * Power10(w - 1)
  }

  function Fixed(n: nat, w: nat): (s: string)
    ensures |s| == w
  {
    if w == 0 then [] else Fixed(n / 10, w - 1) + [Digit(n % 10)]
  }

  lemma {:induction false} FixedZero(w: nat)
    ensures Fixed(0, w) == seq(w, _ => '0')
  {
    if w > 0 {
      FixedZero(w - 1);
    }
  }

  lemma {:induction false} ZeroPaddedIsFixed(n: nat, w: nat)
    requires n < Power10(w) && w > 0
    ensures ZeroPadded(n, w) == Fixed(n, w)
    decreases w
  {
    if n < 10 {
      FixedZero(w - 1);
      assert n / 10 == 0 && n % 10 == n;
    } else {
      assert w > 1 && n / 10 < Power10(w - 1);
      ZeroPaddedIsFixed(n / 10, w - 1);
    }
  }

  lemma {:induction false} FixedOrder(a: nat, b: nat, w: nat)
    requires a < Power10(w) && b < Power10(w)
    ensures Less(Fixed(a, w), Fixed(b, w)) <==> a < b
    ensures Fixed(a, w) == Fixed(b, w) <==> a == b
  {
    if w > 0 {
      assert a / 10 < Power10(w - 1) && b / 10 < Power10(w - 1);
      FixedOrder(a / 10, b / 10, w - 1);
      var da, db := [Digit(a % 10)], [Digit(b % 10)];
      LessConcat(Fixed(a / 10, w - 1), Fixed(b / 10, w - 1), da, db);
      assert Less(da, db) <==> a % 10 < b % 10;
      var fa, fb := Fixed(a, w), Fixed(b, w);
      assert fa[..w - 1] == Fixed(a / 10, w - 1) && fb[..w - 1] == Fixed(b / 10, w - 1);
      assert fa[w - 1] == Digit(a % 10) && fb[w - 1] == Digit(b % 10);
    }
  }

  /** A two-field key: the first field decides, then the rest. */
  lemma FieldOrder(a: nat, b: nat, w: nat, s: string, t: string)
    requires a < Power10(w) && b < Power10(w) && w > 0
    ensures Less(ZeroPadded(a, w) + "-" + s, ZeroPadded(b, w) + "-" + t) <==> a < b || (a == b && Less(s, t))
  {
    ZeroPaddedIsFixed(a, w);
    ZeroPaddedIsFixed(b, w);
    FixedOrder(a, b, w);
    LessConcat(Fixed(a, w) + "-", Fixed(b, w) + "-", s, t);
    LessConcat(Fixed(a, w), Fixed(b, w), "-", "-");
    assert Fixed(a, w) + "-" == Fixed(b, w) + "-" <==> Fixed(a, w) == Fixed(b, w) by {
      assert (Fixed(a, w) + "-")[..w] == Fixed(a, w) && (Fixed(b, w) + "-")[..w] == Fixed(b, w);
    }
  }

  // ------------------------------------------------------ names order as times

  function Clock(sod: nat): string
  {
    ZeroPadded(sod / 3600, 2) + "-" + (ZeroPadded(sod % 3600 / 60, 2) + "-" + ZeroPadded(sod % 60, 2))
  }

  function DateText(d: Date, rest: string): string
    requires 0 <= d.year && 0 <= d.month && 0 <= d.day
  {
    ZeroPadded(d.year, 4) + "-" + (ZeroPadded(d.month, 2) + "-" + (ZeroPadded(d.day, 2) + "-" + rest))
  }

  lemma SplitTime(a: nat) returns (h: int, m: int, s: int)
    ensures h == a / 3600 && m == a % 3600 / 60 && s == a % 60
    ensures a == 3600 * h + 60 * m + s && 0 <= m < 60 && 0 <= s < 60
  {
    h, m, s := a / 3600, a % 3600 / 60, a % 60;
    Quotient(a, 60, 60 * h + m);
  }

  lemma ClockOrder(a: nat, b: nat)
    requires a < 86400 && b < 86400
    ensures Less(Clock(a), Clock(b)) <==> a < b
  {
    var h, m, s := SplitTime(a);
    var h', m', s' := SplitTime(b);
    assert Power10(2) == 100;
    ZeroPaddedIsFixed(s, 2);
    ZeroPaddedIsFixed(s', 2);
    FixedOrder(s, s', 2);
    FieldOrder(m, m', 2, ZeroPadded(s, 2), ZeroPadded(s', 2));
    FieldOrder(h, h', 2, ZeroPadded(m, 2) + "-" + ZeroPadded(s, 2), ZeroPadded(m', 2) + "-" + ZeroPadded(s', 2));
  }

  lemma DateOrder(d: Date, e: Date, s: string, t: string)
    requires Proper(d) && Proper(e) && 0 <= d.year <= 9999 && 0 <= e.year <= 9999
    ensures Less(DateText(d, s), DateText(e, t)) <==> DateLess(d, e) || (d == e && Less(s, t))
  {
    assert Power10(2) == 100 && Power10(4) == 10000;
    FieldOrder(d.day, e.day, 2, s, t);
    FieldOrder(d.month, e.month, 2, ZeroPadded(d.day, 2) + "-" + s, ZeroPadded(e.day, 2) + "-" + t);
    FieldOrder(d.year, e.year, 4,
               ZeroPadded(d.month, 2) + "-" + (ZeroPadded(d.day, 2) + "-" + s),
               ZeroPadded(e.month, 2) + "-" + (ZeroPadded(e.day, 2) + "-" + t));
  }

  lemma FormatParts(a: nat)
    ensures Proper(NthDay(a / 86400)) && NthDay(a / 86400).year >= 1970
    ensures FormatUtc(a) == DateText(NthDay(a / 86400), Clock(a % 86400))
    ensures a < LIMIT ==> NthDay(a / 86400).year <= 9999
  {
    hide CivilFromDays, ZeroPadded;
    CivilIsNthDay(a / 86400);
    YearNotBefore1970(a / 86400);
    YearsBelowLimit(a / 86400);
  }

  lemma DaysOrder(m: nat, n: nat)
    ensures DateLess(NthDay(m), NthDay(n)) <==> m < n
    ensures NthDay(m) == NthDay(n) <==> m == n
  {
    if m < n {
      DaysAscend(m, n);
    } else if n < m {
      DaysAscend(n, m);
    }
  }

  /** Below the limit, names order exactly as times do. */
  lemma FormatOrder(a: nat, b: nat)
    requires a < LIMIT && b < LIMIT
    ensures Less(FormatUtc(a), FormatUtc(b)) <==> a < b
  {
    hide FormatUtc, DateText, Clock;
    FormatParts(a);
    FormatParts(b);
    DaysOrder(a / 86400, b / 86400);
    ClockOrder(a % 86400, b % 86400);
    DateOrder(NthDay(a / 86400), NthDay(b / 86400), Clock(a % 86400), Clock(b % 86400));
  }

  lemma FormatLength(a: nat)
    requires a < LIMIT
    ensures |FormatUtc(a)| == 19
  {
    FormatParts(a);
    var d := NthDay(a / 86400);
    var h, m, s := SplitTime(a % 86400);
    assert Power10(2) == 100 && Power10(4) == 10000;
    ZeroPaddedIsFixed(d.year, 4);
    ZeroPaddedIsFixed(d.month, 2);
    ZeroPaddedIsFixed(d.day, 2);
    ZeroPaddedIsFixed(h, 2);
    ZeroPaddedIsFixed(m, 2);
    ZeroPaddedIsFixed(s, 2);
  }

  lemma FormatInjective(a: nat, b: nat)
    requires a < LIMIT && b < LIMIT && FormatUtc(a) == FormatUtc(b)
    ensures a == b
  {
    hide FormatUtc;
    FormatOrder(a, b);
    FormatOrder(b, a);
    LessIrreflexive(FormatUtc(a));
  }

  lemma FirstDigits()
    ensures Decimal(10000)[0] == '1' && |Decimal(10000)| == 5
    ensures Decimal(9999)[0] == '9' && |Decimal(9999)| == 4
  {
    assert Decimal(10000) == Decimal(1000) + ['0'] && Decimal(1000) == Decimal(100) + ['0'];
    assert Decimal(100) == Decimal(10) + ['0'] && Decimal(10) == ['1', '0'];
    assert Decimal(9999) == Decimal(999) + ['9'] && Decimal(999) == Decimal(99) + ['9'];
    assert Decimal(99) == ['9', '9'];
  }

  /** The first time with a five-digit year sorts before the second before it. */
  lemma OrderBreaksAtLimit()
    ensures Less(FormatUtc(LIMIT), FormatUtc(LIMIT - 1))
  {
    hide CivilFromDays, Decimal;
    FirstDayOfYear10000();
    assert LIMIT / 86400 == 2932897 && (LIMIT - 1) / 86400 == 2932896;
    FirstDigits();
    assert FormatUtc(LIMIT)[0] == ZeroPadded(10000, 4)[0] == '1';
    assert FormatUtc(LIMIT - 1)[0] == ZeroPadded(9999, 4)[0] == '9';
  }

  /** The limit is exact: times below a bound are named in order if and only if the
      bound is at most the first second of the year 10000. */
  lemma NamesOrderAsTimesIff(bound: nat)
    ensures (forall a: nat, b: nat | a < bound && b < bound :: Less(FormatUtc(a), FormatUtc(b)) <==> a < b)
       <==> bound <= LIMIT
  {
    hide FormatUtc;
    if bound <= LIMIT {
      forall a: nat, b: nat | a < bound && b < bound
        ensures Less(FormatUtc(a), FormatUtc(b)) <==> a < b
      {
        FormatOrder(a, b);
      }
    } else {
      OrderBreaksAtLimit();
      LessAsymmetric(FormatUtc(LIMIT), FormatUtc(LIMIT - 1));
      assert Less(FormatUtc(LIMIT), FormatUtc(LIMIT - 1)) && !(LIMIT < LIMIT - 1);
    }
  }

  // --------------------------------------------------------- reading a name back

  /** The number that a string of digits stands for. */
  function Value(s: string): int
  {
    if s == [] then 0 else 10 * Value(s[..|s| - 1]) + (s[|s| - 1] as int - '0' as int)
  }

  lemma {:induction false} DecimalReads(n: nat)
    ensures Value(Decimal(n)) == n
  {
    if n < 10 {
      assert [Digit(n)][..0] == [];
    } else {
      DecimalReads(n / 10);
      assert Decimal(n)[..|Decimal(n)| - 1] == Decimal(n / 10);
    }
  }

  lemma {:induction false} ZerosRead(k: nat, s: string)
    ensures Value(seq(k, _ => '0') + s) == Value(s)
    decreases |s|, k
  {
    var t := seq(k, _ => '0') + s;
    if s != [] {
      assert t[..|t| - 1] == seq(k, _ => '0') + s[..|s| - 1];
      ZerosRead(k, s[..|s| - 1]);
    } else if k > 0 {
      assert t[..|t| - 1] == seq(k - 1, _ => '0') + s;
      ZerosRead(k - 1, s);
    } else {
      assert t == s;
    }
  }

  lemma PaddedReads(n: nat, width: nat)
    ensures Value(ZeroPadded(n, width)) == n && |ZeroPadded(n, width)| >= width
    ensures width == 2 && n < 100 ==> |ZeroPadded(n, width)| == 2
  {
    hide Decimal;
    var s := Decimal(n);
    DecimalReads(n);
    if |s| < width {
      ZerosRead(width - |s|, s);
    }
    if width == 2 && n < 100 {
      assert Power10(2) == 100;
      ZeroPaddedIsFixed(n, 2);
    }
  }

  lemma ReadClock(sod: nat)
    requires sod < 86400
    ensures var t := Clock(sod);
      && |t| == 8 && t[2] == '-' == t[5]
      && Value(t[..2]) < 24 && Value(t[3..5]) < 60 && Value(t[6..]) < 60
      && 3600 * Value(t[..2]) + 60 * Value(t[3..5]) + Value(t[6..]) == sod
  {
    hide ZeroPadded, Value;
    var h, m, s := SplitTime(sod);
    PaddedReads(h, 2);
    PaddedReads(m, 2);
    PaddedReads(s, 2);
    var t := Clock(sod);
    assert t[..2] == ZeroPadded(h, 2) && t[3..5] == ZeroPadded(m, 2) && t[6..] == ZeroPadded(s, 2);
  }

  lemma ReadDate(d: Date, rest: string)
    requires Proper(d) && 0 <= d.year
    ensures var t := DateText(d, rest); var k := |t| - |rest| - 7;
      && k >= 4 && t[k] == '-' == t[k + 3] == t[k + 6] && t[k + 7..] == rest
      && Value(t[..k]) == d.year && Value(t[k + 1..k + 3]) == d.month && Value(t[k + 4..k + 6]) == d.day
  {
    hide ZeroPadded, Value;
    PaddedReads(d.year, 4);
    PaddedReads(d.month, 2);
    PaddedReads(d.day, 2);
    var t, k := DateText(d, rest), |ZeroPadded(d.year, 4)|;
    assert t[..k] == ZeroPadded(d.year, 4);
    assert t[k + 1..k + 3] == ZeroPadded(d.month, 2) && t[k + 4..k + 6] == ZeroPadded(d.day, 2);
  }

  /** Every name reads back as its time: the date fields are the day counted from the first of
      January 1970, and hour, minute and second make up the rest. */
  lemma FormatReadsBack(secs: nat)
    ensures var t := FormatUtc(secs); var k := |t| - 15;
      && k >= 4 && t[k] == '-' == t[k + 3] == t[k + 6] == t[k + 9] == t[k + 12]
      && NthDay(secs / 86400) == Date(Value(t[..k]), Value(t[k + 1..k + 3]), Value(t[k + 4..k + 6]))
      && Value(t[k + 7..k + 9]) < 24 && Value(t[k + 10..k + 12]) < 60 && Value(t[k + 13..]) < 60
      && 86400 * (secs / 86400) + 3600 * Value(t[k + 7..k + 9]) + 60 * Value(t[k + 10..k + 12]) + Value(t[k + 13..]) == secs
  {
    hide FormatUtc, DateText, Clock, Value;
    FormatParts(secs);
    var rest := Clock(secs % 86400);
    ReadClock(secs % 86400);
    ReadDate(NthDay(secs / 86400), rest);
    var t := FormatUtc(secs);
    var k := |t| - 15;
    assert t[k + 7..k + 9] == t[k + 7..][..2] && t[k + 10..k + 12] == t[k + 7..][3..5] && t[k + 13..] == t[k + 7..][6..];
    assert t[k + 9] == t[k + 7..][2] && t[k + 12] == t[k + 7..][5];
  }
}
