/** Bucket names, expiry times and table keys of the leaderboard (app/leaderboard/updater.py). */
module Buckets {
  import opened Prelude
  import opened Calendar

  /** An aware UTC `datetime`: its date, second of the day and microsecond. */
  datatype Instant = Instant(date: Date, second: int, micro: int)

  predicate IsInstant(t: Instant) {
    IsDate(t.date) && t.date.year <= MAX_YEAR && 0 <= t.second < 86400 && 0 <= t.micro < 1000000
  }

  const EPOCH := 719163  // 1 January 1970
  const DAY := 86400
  const GRACE_DAYS := 30

  /** Whole seconds since the epoch. */
  function Timestamp(t: Instant): int { (Ordinal(t.date) - EPOCH) * DAY + t.second }

  /** Whitespace as `str.strip` sees it. */
  predicate IsSpace(c: char) {
    || '\t' <= c <= '\r' || '\U{1c}' <= c <= ' ' || c == '\U{85}' || c == '\U{a0}' || c == '\U{1680}'
    || '\U{2000}' <= c <= '\U{200a}' || c == '\U{2028}' || c == '\U{2029}' || c == '\U{202f}'
    || c == '\U{205f}' || c == '\U{3000}'
  }

  function Strip(s: string): (r: string)
    ensures r != [] ==> !IsSpace(r[0]) && !IsSpace(r[|r| - 1])
    ensures r == [] <==> forall i :: 0 <= i < |s| ==> IsSpace(s[i])
    decreases |s|
  {
    if s == [] then []
    else if IsSpace(s[0]) then assert forall i :: 0 < i < |s| ==> s[i] == s[1..][i - 1]; Strip(s[1..])
    else if IsSpace(s[|s| - 1]) then assert s[..|s| - 1][0] == s[0]; Strip(s[..|s| - 1])
    else s
  }

  /** The white space of Python strings, by code point. */
  lemma SpaceExactly(c: char)
    ensures var n := c as int;
            IsSpace(c) <==>
            9 <= n <= 13 || 28 <= n <= 32 || n in [133, 160, 5760] || 8192 <= n <= 8202
            || n in [8232, 8233, 8239, 8287, 12288]
  {
  }

  predicate AllSpace(s: string) { forall i :: 0 <= i < |s| ==> IsSpace(s[i]) }

  /** The text has no space at either end. */
  predicate Trimmed(s: string) { s == "" || (!IsSpace(s[0]) && !IsSpace(s[|s| - 1])) }

  lemma SpaceBefore(c: char, s: string, a: string, m: string, b: string)
    requires IsSpace(c) && s != "" && s[0] == c && s[1..] == a + m + b && AllSpace(a)
    ensures s == ([c] + a) + m + b && AllSpace([c] + a)
  {
    assert s == [c] + s[1..];
  }

  lemma SpaceAfter(c: char, s: string, a: string, m: string, b: string)
    requires IsSpace(c) && s != "" && s[|s| - 1] == c && s[..|s| - 1] == a + m + b && AllSpace(b)
    ensures s == a + m + (b + [c]) && AllSpace(b + [c])
  {
    assert s == s[..|s| - 1] + [c];
  }

  /** Stripping takes away the space around a text and nothing else. */
  lemma {:induction false} StripSplits(s: string) returns (a: string, b: string)
    ensures s == a + Strip(s) + b && AllSpace(a) && AllSpace(b) && Trimmed(Strip(s))
    decreases |s|
  {
    a, b := "", "";
    if s == "" {
    } else if IsSpace(s[0]) {
      a, b := StripSplits(s[1..]);
      SpaceBefore(s[0], s, a, Strip(s[1..]), b);
      a := [s[0]] + a;
    } else if IsSpace(s[|s| - 1]) {
      a, b := StripSplits(s[..|s| - 1]);
      SpaceAfter(s[|s| - 1], s, a, Strip(s[..|s| - 1]), b);
      b := b + [s[|s| - 1]];
    } else {
      assert s == "" + s + "";
    }
  }

  /** So the stripped text is what is left between any such spaces. */
  lemma {:induction false} StripOf(a: string, core: string, b: string)
    requires AllSpace(a) && AllSpace(b) && Trimmed(core)
    ensures Strip(a + core + b) == core
    decreases |a| + |b|
  {
    if a != "" {
      StripFront(a, core, b);
      StripOf(a[1..], core, b);
    } else if b != "" {
      StripBack(core, b);
      StripOf(a, core, b[..|b| - 1]);
    } else {
      assert a + core + b == core;
    }
  }

  lemma {:induction false} StripFront(a: string, core: string, b: string)
    requires a != "" && IsSpace(a[0])
    ensures Strip(a + core + b) == Strip(a[1..] + core + b)
  {
    var s := a + core + b;
    assert s[0] == a[0] && s[1..] == a[1..] + core + b;
  }

  lemma {:induction false} StripBack(core: string, b: string)
    requires Trimmed(core) && b != "" && AllSpace(b)
    ensures Strip("" + core + b) == Strip("" + core + b[..|b| - 1])
  {
    var s := "" + core + b;
    assert s[|s| - 1] == b[|b| - 1] && s[..|s| - 1] == "" + core + b[..|b| - 1];
    if core == "" {
      AllSpaceStrips(s);
      AllSpaceStrips(s[..|s| - 1]);
    } else {
      assert s[0] == core[0];
    }
  }

  lemma {:induction false} AllSpaceStrips(s: string)
    requires AllSpace(s)
    ensures Strip(s) == ""
  {
  }

  /** A natural number in decimal, zero-padded to at least `width` digits. */
  function Padded(n: nat, width: nat): (r: string)
    ensures |r| >= 1
    decreases n, width
  {
    var last := ['0' + (n % 10) as char];
    if n < 10 && width <= 1 then last else Padded(n / 10, if width == 0 then 0 else width - 1) + last
  }

  lemma {:induction false} PaddedInjective(n: nat, m: nat, width: nat)
    requires Padded(n, width) == Padded(m, width)
    ensures n == m
    decreases n, width
  {
    var p, q := Padded(n, width), Padded(m, width);
    assert p[|p| - 1] == q[|q| - 1];
    assert p[..|p| - 1] == q[..|q| - 1];
    if (n >= 10 || width > 1) && (m >= 10 || width > 1) {
      PaddedInjective(n / 10, m / 10, if width == 0 then 0 else width - 1);
    }
  }

  lemma {:induction false} PaddedLengths(n: nat)
    ensures n < 100 ==> |Padded(n, 2)| == 2
    ensures n < 10000 ==> |Padded(n, 4)| == 4
  {
    if n < 10000 {
      assert Padded(n, 4) == Padded(n / 10, 3) + ['0' + (n % 10) as char];
      assert Padded(n / 10, 3) == Padded(n / 10 / 10, 2) + ['0' + (n / 10 % 10) as char];
    }
  }

  function WeeklyKey(lang: string, w: IsoWeek): string
    requires w.year >= 0 && w.week >= 0
  {
    lang + "#" + Padded(w.year, 4) + "-W" + Padded(w.week, 2)
  }

  function MonthlyKey(lang: string, m: Month): string
    requires m.year >= 0 && m.month >= 0
  {
    lang + "#" + Padded(m.year, 4) + "-" + Padded(m.month, 2)
  }

  datatype Bucket = Bucket(key: string, ttl: int)

  /** The expiry of a period whose last day is `last`: its last second plus the grace. */
  function Expiry(last: int): int { (last + GRACE_DAYS - EPOCH) * DAY + (DAY - 1) }

  /** `_weekly_bucket`; None where the date arithmetic leaves the `datetime` range. */
  function WeeklyBucket(lang: string, now: Instant): Option<Bucket>
    requires IsInstant(now)
  {
    var w := IsoCalendar(now.date);
    var monday := MondayOf(w);
    if monday + 7 > MAX_ORDINAL || monday + 6 + GRACE_DAYS > MAX_ORDINAL then None
    else IsoCalendarCorrect(now.date); Some(Bucket(WeeklyKey(lang, w), Expiry(monday + 6)))
  }

  /** `_monthly_bucket`; None where the next month or the expiry leaves the `datetime` range. */
  function MonthlyBucket(lang: string, now: Instant): Option<Bucket>
    requires IsInstant(now)
  {
    var m := Month(now.date.year, now.date.month);
    var next := NextMonth(m);
    if next.year > MAX_YEAR || FirstOf(next) - 1 + GRACE_DAYS > MAX_ORDINAL then None
    else Some(Bucket(MonthlyKey(lang, m), Expiry(FirstOf(next) - 1)))
  }

  function PartitionKey(bucket: string): string { "BUCKET#" + bucket }

  function SortKey(user: string): string { "USER#" + user }

  // ---- Keys identify the language and the period ----

  lemma SuffixSplit(a: string, x: string, b: string, y: string)
    requires a + x == b + y && |x| == |y|
    ensures a == b && x == y
  {
    assert a == (a + x)[..|a|] && b == (b + y)[..|b|];
    assert x == (a + x)[|a|..] && y == (b + y)[|b|..];
  }

  predicate FourDigitWeek(w: IsoWeek) { 0 <= w.year <= MAX_YEAR && 0 <= w.week <= 53 }

  predicate FourDigitMonth(m: Month) { 0 <= m.year <= MAX_YEAR && 1 <= m.month <= 12 }

  /** A weekly key names one language and one ISO week, whatever the language contains. */
  lemma WeeklyKeyInjective(lang: string, v: IsoWeek, lang': string, w: IsoWeek)
    requires FourDigitWeek(v) && FourDigitWeek(w) && WeeklyKey(lang, v) == WeeklyKey(lang', w)
    ensures lang == lang' && v == w
  {
    PaddedLengths(v.year);
    PaddedLengths(w.year);
    PaddedLengths(v.week);
    PaddedLengths(w.week);
    SuffixSplit(lang + "#" + Padded(v.year, 4) + "-W", Padded(v.week, 2),
                lang' + "#" + Padded(w.year, 4) + "-W", Padded(w.week, 2));
    SuffixSplit(lang + "#" + Padded(v.year, 4), "-W", lang' + "#" + Padded(w.year, 4), "-W");
    SuffixSplit(lang + "#", Padded(v.year, 4), lang' + "#", Padded(w.year, 4));
    SuffixSplit(lang, "#", lang', "#");
    PaddedInjective(v.year, w.year, 4);
    PaddedInjective(v.week, w.week, 2);
  }

  /** A monthly key names one language and one month. */
  lemma MonthlyKeyInjective(lang: string, v: Month, lang': string, w: Month)
    requires FourDigitMonth(v) && FourDigitMonth(w) && MonthlyKey(lang, v) == MonthlyKey(lang', w)
    ensures lang == lang' && v == w
  {
    PaddedLengths(v.year);
    PaddedLengths(w.year);
    PaddedLengths(v.month);
    PaddedLengths(w.month);
    SuffixSplit(lang + "#" + Padded(v.year, 4) + "-", Padded(v.month, 2),
                lang' + "#" + Padded(w.year, 4) + "-", Padded(w.month, 2));
    SuffixSplit(lang + "#" + Padded(v.year, 4), "-", lang' + "#" + Padded(w.year, 4), "-");
    SuffixSplit(lang + "#", Padded(v.year, 4), lang' + "#", Padded(w.year, 4));
    SuffixSplit(lang, "#", lang', "#");
    PaddedInjective(v.year, w.year, 4);
    PaddedInjective(v.month, w.month, 2);
  }

  /** No weekly key is a monthly key: they differ three characters from the end. */
  lemma WeeklyKeyNotMonthly(lang: string, w: IsoWeek, lang': string, m: Month)
    requires FourDigitWeek(w) && FourDigitMonth(m)
    ensures WeeklyKey(lang, w) != MonthlyKey(lang', m)
  {
    PaddedLengths(w.week);
    PaddedLengths(m.month);
    var a, b := lang + "#" + Padded(w.year, 4) + "-W", lang' + "#" + Padded(m.year, 4) + "-";
    assert a[|a| - 1] == 'W' && b[|b| - 1] == '-';
    if a + Padded(w.week, 2) == b + Padded(m.month, 2) {
      SuffixSplit(a, Padded(w.week, 2), b, Padded(m.month, 2));
    }
  }

  /** The ISO year of an instant has four digits too. */
  lemma IsoYearFits(now: Instant)
    requires IsInstant(now)
    ensures IsIsoWeek(IsoCalendar(now.date)) && FourDigitWeek(IsoCalendar(now.date))
  {
    IsoCalendarCorrect(now.date);
    IsoYearWithinRange(now.date);
    FirstMondayFacts(IsoCalendar(now.date).year);
  }

  /** A language, the text it has within its spaces, and those spaces. */
  datatype Spaced = Spaced(before: string, core: string, after: string) {
    function Text(): string { before + core + after }

    predicate Valid() { AllSpace(before) && AllSpace(after) && Trimmed(core) }
  }

  /** Two weekly writes hit the same item exactly when the languages within their spaces, the users and
      the Monday-to-Sunday weeks are the same. */
  lemma {:induction false} SameWeeklyItem(lang: Spaced, user: string, now: Instant,
                                          lang': Spaced, user': string, now': Instant)
    requires lang.Valid() && lang'.Valid() && IsInstant(now) && IsInstant(now')
    requires WeeklyBucket(Strip(lang.Text()), now).Some? && WeeklyBucket(Strip(lang'.Text()), now').Some?
    ensures var b, b' := WeeklyBucket(Strip(lang.Text()), now).value, WeeklyBucket(Strip(lang'.Text()), now').value;
            PartitionKey(b.key) == PartitionKey(b'.key) && SortKey(user) == SortKey(user') <==>
            && lang.core == lang'.core && user == user'
            && MondayBefore(Ordinal(now.date)) == MondayBefore(Ordinal(now'.date))
  {
    StripOf(lang.before, lang.core, lang.after);
    StripOf(lang'.before, lang'.core, lang'.after);
    SameWeekItem(lang.core, user, now, lang'.core, user', now');
  }

  lemma {:induction false} SameWeekItem(lang: string, user: string, now: Instant,
                                        lang': string, user': string, now': Instant)
    requires IsInstant(now) && IsInstant(now')
    requires WeeklyBucket(lang, now).Some? && WeeklyBucket(lang', now').Some?
    ensures var b, b' := WeeklyBucket(lang, now).value, WeeklyBucket(lang', now').value;
            PartitionKey(b.key) == PartitionKey(b'.key) && SortKey(user) == SortKey(user') <==>
            && lang == lang' && user == user'
            && MondayBefore(Ordinal(now.date)) == MondayBefore(Ordinal(now'.date))
  {
    var b, b' := WeeklyBucket(lang, now).value, WeeklyBucket(lang', now').value;
    var w, w' := IsoCalendar(now.date), IsoCalendar(now'.date);
    IsoYearFits(now);
    IsoYearFits(now');
    IsoCalendarCorrect(now.date);
    IsoCalendarCorrect(now'.date);
    PrefixSplit("BUCKET#", b.key, b'.key);
    PrefixSplit("USER#", user, user');
    if MondayBefore(Ordinal(now.date)) == MondayBefore(Ordinal(now'.date)) { MondayInjective(w, w'); }
    if b.key == b'.key { WeeklyKeyInjective(lang, w, lang', w'); }
  }

  lemma PrefixSplit(p: string, a: string, b: string)
    ensures p + a == p + b <==> a == b
  {
    assert a == (p + a)[|p|..] && b == (p + b)[|p|..];
  }

  /** Two monthly writes hit the same item exactly when the languages within their spaces, the users and
      the calendar months are the same. */
  lemma {:induction false} SameMonthlyItem(lang: Spaced, user: string, now: Instant,
                                           lang': Spaced, user': string, now': Instant)
    requires lang.Valid() && lang'.Valid() && IsInstant(now) && IsInstant(now')
    requires MonthlyBucket(Strip(lang.Text()), now).Some? && MonthlyBucket(Strip(lang'.Text()), now').Some?
    ensures var b, b' := MonthlyBucket(Strip(lang.Text()), now).value, MonthlyBucket(Strip(lang'.Text()), now').value;
            PartitionKey(b.key) == PartitionKey(b'.key) && SortKey(user) == SortKey(user') <==>
            && lang.core == lang'.core && user == user'
            && now.date.year == now'.date.year && now.date.month == now'.date.month
  {
    StripOf(lang.before, lang.core, lang.after);
    StripOf(lang'.before, lang'.core, lang'.after);
    var b, b' := MonthlyBucket(lang.core, now).value, MonthlyBucket(lang'.core, now').value;
    PrefixSplit("BUCKET#", b.key, b'.key);
    PrefixSplit("USER#", user, user');
    if b.key == b'.key {
      MonthlyKeyInjective(lang.core, Month(now.date.year, now.date.month),
                          lang'.core, Month(now'.date.year, now'.date.month));
    }
  }

  /** Weekly and monthly writes never share an item. */
  lemma WeeklyNeverMonthly(lang: string, now: Instant, lang': string, now': Instant)
    requires IsInstant(now) && IsInstant(now')
    requires WeeklyBucket(lang, now).Some? && MonthlyBucket(lang', now').Some?
    ensures PartitionKey(WeeklyBucket(lang, now).value.key) != PartitionKey(MonthlyBucket(lang', now').value.key)
  {
    IsoYearFits(now);
    PrefixSplit("BUCKET#", WeeklyBucket(lang, now).value.key, MonthlyBucket(lang', now').value.key);
    WeeklyKeyNotMonthly(lang, IsoCalendar(now.date), lang', Month(now'.date.year, now'.date.month));
  }

  // ---- Expiry ----

  /** An item written now lives between 30 days and a period more: 37 days less a second for a
      week, 61 days less a second for a month. */
  lemma ExpiryWindows(lang: string, now: Instant)
    requires IsInstant(now)
    ensures WeeklyBucket(lang, now).Some? ==>
              30 * DAY <= WeeklyBucket(lang, now).value.ttl - Timestamp(now) <= 37 * DAY - 1
    ensures MonthlyBucket(lang, now).Some? ==>
              30 * DAY <= MonthlyBucket(lang, now).value.ttl - Timestamp(now) <= 61 * DAY - 1
  {
    IsoCalendarCorrect(now.date);
    MonthsTile(Month(now.date.year, now.date.month), now.date);
  }

  /** The weekly arithmetic fails only at the end of the calendar: exactly when the week and its
      grace run past the last representable day, and never before 9999. */
  lemma WeeklyOverflow(lang: string, now: Instant)
    requires IsInstant(now)
    ensures WeeklyBucket(lang, now).None? <==> MondayBefore(Ordinal(now.date)) > MAX_ORDINAL - 36
    ensures now.date.year < MAX_YEAR ==> WeeklyBucket(lang, now).Some?
  {
    IsoCalendarCorrect(now.date);
    DateWithinRange(now.date);
  }

  /** The monthly arithmetic fails exactly in December 9999. */
  lemma MonthlyOverflow(lang: string, now: Instant)
    requires IsInstant(now)
    ensures MonthlyBucket(lang, now).None? <==> now.date.year == MAX_YEAR && now.date.month == 12
  {
    var y, m := now.date.year, now.date.month;
    YearsWithinRange(y);
    YearsWithinRange(y + 1);
    if m < 12 { MonthStart(y, m + 1); }
  }

  lemma MonthStart(y: int, m: int)
    requires 1 <= m <= 12
    ensures DaysBeforeMonth(y, m) <= if IsLeap(y) then 335 else 334
  {
  }

  // ---- Keys and expiries, written out ----

  function Digit(n: int): char { '0' + (n % 10) as char }

  lemma PaddedStep(n: nat, width: nat)
    ensures n < 10 && width <= 1 ==> Padded(n, width) == [Digit(n)]
    ensures n >= 10 || width > 1 ==>
              Padded(n, width) == Padded(n / 10, if width == 0 then 0 else width - 1) + [Digit(n)]
  {
  }

  lemma {:induction false} PaddedTwo(n: nat)
    requires n < 100
    ensures Padded(n, 2) == [Digit(n / 10), Digit(n)]
  {
    PaddedStep(n, 2);
    PaddedStep(n / 10, 1);
  }

  lemma {:induction false} PaddedFour(n: nat)
    requires n < 10000
    ensures Padded(n, 4) == [Digit(n / 1000), Digit(n / 100), Digit(n / 10), Digit(n)]
  {
    PaddedStep(n, 4);
    PaddedStep(n / 10, 3);
    PaddedTwo(n / 10 / 10);
    assert n / 10 / 10 == n / 100 && n / 100 / 10 == n / 1000;
  }

  /** The value of decimal digits, most significant first. */
  function Decimal(s: string): int {
    if s == "" then 0 else 10 * Decimal(s[..|s| - 1]) + (s[|s| - 1] as int - '0' as int)
  }

  lemma {:induction false} OneMoreDigit(s: string, n: nat)
    ensures Decimal(s + [Digit(n)]) == 10 * Decimal(s) + n % 10
  {
    assert (s + [Digit(n)])[..|s|] == s;
  }

  lemma ValueStep(n: nat, width: nat)
    ensures Decimal(Padded(n, width)) ==
            if n < 10 && width <= 1 then n
            else 10 * Decimal(Padded(n / 10, if width == 0 then 0 else width - 1)) + n % 10
  {
    PaddedStep(n, width);
    if n < 10 && width <= 1 {
      OneMoreDigit("", n);
      assert "" + [Digit(n)] == [Digit(n)];
    } else {
      OneMoreDigit(Padded(n / 10, if width == 0 then 0 else width - 1), n);
    }
  }

  lemma {:induction false} PaddedValue(n: nat, width: nat)
    ensures Decimal(Padded(n, width)) == n
    decreases n, width
  {
    ValueStep(n, width);
    if n < 10 && width <= 1 {
    } else {
      PaddedValue(n / 10, if width == 0 then 0 else width - 1);
    }
  }

  predicate AllDigits(s: string) { forall i :: 0 <= i < |s| ==> '0' <= s[i] <= '9' }

  lemma OneMoreOfDigits(s: string, n: nat)
    requires AllDigits(s)
    ensures AllDigits(s + [Digit(n)])
  {
  }

  lemma {:induction false} PaddedShape(n: nat, width: nat)
    ensures AllDigits(Padded(n, width)) && |Padded(n, width)| >= width
    decreases n, width
  {
    PaddedStep(n, width);
    if n < 10 && width <= 1 {
      OneMoreOfDigits("", n);
      assert "" + [Digit(n)] == [Digit(n)];
    } else {
      PaddedShape(n / 10, if width == 0 then 0 else width - 1);
      OneMoreOfDigits(Padded(n / 10, if width == 0 then 0 else width - 1), n);
    }
  }

  /** A padded number is decimal digits with its value, and at least as many as asked for. */
  lemma {:induction false} PaddedIsDecimal(n: nat, width: nat)
    ensures Decimal(Padded(n, width)) == n && AllDigits(Padded(n, width)) && |Padded(n, width)| >= width
  {
    PaddedValue(n, width);
    PaddedShape(n, width);
  }

  /** The weekly bucket, written out: the language, the ISO year and week in digits, and an expiry 30
      days after the last second of its Sunday, in seconds since day 719163, 1 January 1970. */
  lemma WeeklyBucketExactly(lang: string, now: Instant)
    requires IsInstant(now) && WeeklyBucket(lang, now).Some?
    ensures var b, w, monday := WeeklyBucket(lang, now).value, IsoCalendar(now.date), MondayBefore(Ordinal(now.date));
            && PartitionKey(b.key) ==
               "BUCKET#" + (lang + "#" + [Digit(w.year / 1000), Digit(w.year / 100), Digit(w.year / 10), Digit(w.year)]
                            + "-W" + [Digit(w.week / 10), Digit(w.week)])
            && b.ttl == (monday + 7 + 30 - 719163) * 86400 - 1
  {
    IsoYearFits(now);
    IsoCalendarCorrect(now.date);
    PaddedFour(IsoCalendar(now.date).year);
    PaddedTwo(IsoCalendar(now.date).week);
  }

  /** The monthly bucket, written out: the language, the year and month in digits, and an expiry 30 days
      after the last second of the month. */
  lemma MonthlyBucketExactly(lang: string, now: Instant)
    requires IsInstant(now) && MonthlyBucket(lang, now).Some?
    ensures var b, y, m := MonthlyBucket(lang, now).value, now.date.year, now.date.month;
            && PartitionKey(b.key) ==
               "BUCKET#" + (lang + "#" + [Digit(y / 1000), Digit(y / 100), Digit(y / 10), Digit(y)]
                            + "-" + [Digit(m / 10), Digit(m)])
            && b.ttl == (Ordinal(Date(y, m, DaysInMonth(y, m))) + 1 + 30 - 719163) * 86400 - 1
  {
    PaddedFour(now.date.year);
    PaddedTwo(now.date.month);
    MonthsTile(Month(now.date.year, now.date.month), now.date);
  }
}
