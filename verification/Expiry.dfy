/** Expiry dates of dependency exceptions (`xtask/src/deps.rs`: `expiry`, `names_a_board_item`,
    `problems`) against the clock of `xtask/src/changelog.rs` (`system_today`). Texts are their
    UTF-8 bytes: every position `expiry` reads must be an ASCII character for it to go on. */
module Expiry {
  import opened Options
  import opened Text
  import opened Decimal
  import opened Calendar

  // ---- dates as text ---------------------------------------------------------------------

  /** `{y:04}-{m:02}-{d:02}`. */
  function Format(x: Date): string
    requires x.year >= 0 && x.month >= 0 && x.day >= 0
  {
    Padded(x.year, 4) + "-" + Padded(x.month, 2) + "-" + Padded(x.day, 2)
  }

  predicate Fits(x: Date) {
    0 <= x.year < 10000 && 0 <= x.month < 100 && 0 <= x.day < 100
  }

  function Stamp(x: Date): (s: string)
    requires Fits(x)
    ensures |s| == 10
  {
    Fixed(x.year, 4) + ("-" + (Fixed(x.month, 2) + ("-" + Fixed(x.day, 2))))
  }

  lemma Tens()
    ensures Power10(2) == 100 && Power10(4) == 10000
  {
    assert Power10(1) == 10;
    assert Power10(2) == 100;
    assert Power10(3) == 1000;
  }

  lemma FormatIsStamp(x: Date)
    requires Fits(x)
    ensures Format(x) == Stamp(x)
  {
    Tens();
    PaddedIsFixed(x.year, 4);
    PaddedIsFixed(x.month, 2);
    PaddedIsFixed(x.day, 2);
  }

  /** Ten bytes in the shape of a date, as the numbers they spell. */
  function ReadDate(b: string): Option<Date>
    requires |b| == 10
  {
    if AllDigits(b[..4]) && b[4] == '-' && AllDigits(b[5..7]) && b[7] == '-' && AllDigits(b[8..]) then
      Some(Date(Value(b[..4]), Value(b[5..7]), Value(b[8..])))
    else None
  }

  lemma StampRead(x: Date)
    requires Fits(x)
    ensures ReadDate(Stamp(x)) == Some(x)
  {
    Tens();
    var s := Stamp(x);
    assert s[..4] == Fixed(x.year, 4) && s[5..7] == Fixed(x.month, 2) && s[8..] == Fixed(x.day, 2);
    FixedRead(x.year, 4);
    FixedRead(x.month, 2);
    FixedRead(x.day, 2);
  }

  lemma DateStamped(b: string)
    requires |b| == 10 && ReadDate(b).Some?
    ensures Fits(ReadDate(b).value) && b == Stamp(ReadDate(b).value)
  {
    Tens();
    FixedWritten(b[..4]);
    FixedWritten(b[5..7]);
    FixedWritten(b[8..]);
    assert b == b[..4] + ("-" + (b[5..7] + ("-" + b[8..])));
  }

  // ---- `expires YYYY-MM-DD:` -------------------------------------------------------------

  const LEAD := "expires "

  function ExpiryDate(reason: string): Option<string> {
    if !(LEAD <= reason && |reason| > 18) then None
    else
      var date := reason[8..18];
      if reason[18] != ':' then None
      else
        match ReadDate(date)
        case None => None
        case Some(x) => if 1 <= x.day <= DaysIn(x.year, x.month) then Some(date) else None
  }

  ghost predicate Opens(reason: string, date: string, rest: string) { reason == "expires " + date + ":" + rest }

  lemma OpensAt(reason: string, date: string, rest: string)
    requires |date| == 10 && Opens(reason, date, rest)
    ensures LEAD <= reason && |reason| > 18 && reason[8..18] == date && reason[18] == ':'
  {
    assert reason[..8] == "expires " == LEAD;
  }

  lemma OpensWith(reason: string, date: string)
    requires LEAD <= reason && |reason| > 18 && reason[8..18] == date && reason[18] == ':'
    ensures Opens(reason, date, reason[19..])
  {
    assert LEAD == "expires " && reason[..8] == LEAD;
    assert reason == reason[..8] + reason[8..18] + [reason[18]] + reason[19..];
  }

  /** A reason is accepted exactly when it starts with a four-digit calendar date, written in full. */
  lemma ExpiryMeans(reason: string, date: string)
    ensures ExpiryDate(reason) == Some(date) <==> exists x, rest :: Fits(x) && IsDate(x) && date == Stamp(x) && Opens(reason, date, rest)
  {
    if ExpiryDate(reason) == Some(date) {
      DateStamped(date);
      OpensWith(reason, date);
    }
    if x, rest :| Fits(x) && IsDate(x) && date == Stamp(x) && Opens(reason, date, rest) {
      OpensAt(reason, date, rest);
      StampRead(x);
    }
  }

  // ---- today -----------------------------------------------------------------------------

  /** The clock never shows a year before 1970. */
  lemma TodayIsDate(secs: nat)
    ensures IsDate(CivilFromDays(secs / 86_400)) && CivilFromDays(secs / 86_400).year >= 1970
  {
    var n := secs / 86_400;
    CivilIsDate(n);
    CountedBack(n);
    var x, epoch := CivilFromDays(n), Date(1970, 1, 1);
    CountedEpoch();
    CivilEpoch();
    SameOrder(x, epoch);
  }

  /** `system_today` at `secs` seconds since the epoch. */
  function SystemToday(secs: nat): string {
    TodayIsDate(secs);
    Format(CivilFromDays(secs / 86_400))
  }

  /** Four-digit dates are ordered as text as they are as days. */
  lemma StampOrder(x: Date, y: Date)
    requires Fits(x) && Fits(y)
    ensures Less(Stamp(x), Stamp(y)) <==> Before(x, y)
  {
    Tens();
    var xd, yd := Fixed(x.day, 2), Fixed(y.day, 2);
    var xm, ym := Fixed(x.month, 2), Fixed(y.month, 2);
    FixedOrder(x.year, y.year, 4);
    FixedInjective(x.year, y.year, 4);
    FixedOrder(x.month, y.month, 2);
    FixedInjective(x.month, y.month, 2);
    FixedOrder(x.day, y.day, 2);
    LessConcat("-", "-", xd, yd);
    LessConcat(xm, ym, "-" + xd, "-" + yd);
    LessConcat("-", "-", xm + ("-" + xd), ym + ("-" + yd));
    LessConcat(Fixed(x.year, 4), Fixed(y.year, 4), "-" + (xm + ("-" + xd)), "-" + (ym + ("-" + yd)));
  }

  // ---- years of five digits and more -----------------------------------------------------

  /** The number the first four digits of `n` spell. */
  function LeadingFour(n: nat): nat {
    if n < 10000 then n else LeadingFour(n / 10)
  }

  lemma {:induction false} LeadingDigits(n: nat)
    requires n >= 1000
    ensures 1000 <= LeadingFour(n) < 10000
    ensures |Digits(n)| >= 4 && Digits(n)[..4] == Fixed(LeadingFour(n), 4)
    ensures n >= 10000 ==> |Digits(n)| >= 5
  {
    if n < 10000 {
      FourDigits(n);
    } else {
      LeadingDigits(n / 10);
    }
  }

  lemma FourDigits(n: nat)
    requires 1000 <= n < 10000
    ensures |Digits(n)| == 4 && Digits(n) == Fixed(n, 4)
  {
    Tens();
    PaddedIsFixed(n, 4);
    assert |Digits(n / 1000)| == 1;
    assert |Digits(n / 100)| == 2 by { assert n / 100 / 10 == n / 1000; }
    assert |Digits(n / 10)| == 3 by { assert n / 10 / 10 == n / 100; }
  }

  lemma LongYearOrder(x: Date, y: Date)
    requires Fits(x) && y.year >= 10000 && y.month >= 0 && y.day >= 0
    ensures Less(Stamp(x), Format(y)) <==> x.year <= LeadingFour(y.year)
  {
    Tens();
    var lead := LeadingFour(y.year);
    var tail := LongFormat(y);
    var rest := "-" + (Fixed(x.month, 2) + ("-" + Fixed(x.day, 2)));
    LessConcat(Fixed(x.year, 4), Fixed(lead, 4), rest, tail);
    FixedOrder(x.year, lead, 4);
    FixedInjective(x.year, lead, 4);
    assert rest[0] == '-';
  }

  lemma LongFormat(y: Date) returns (tail: string)
    requires y.year >= 10000 && y.month >= 0 && y.day >= 0
    ensures 1000 <= LeadingFour(y.year) < 10000
    ensures Format(y) == Fixed(LeadingFour(y.year), 4) + tail && tail != [] && IsDigit(tail[0])
  {
    LeadingDigits(y.year);
    var ds, more := Digits(y.year), "-" + Padded(y.month, 2) + "-" + Padded(y.day, 2);
    FormatLong(y, ds, more);
    tail := CutAfterFour(ds, more);
  }

  /** A year of five digits or more is written without padding. */
  lemma FormatLong(y: Date, ds: string, more: string)
    requires y.year >= 0 && y.month >= 0 && y.day >= 0 && ds == Digits(y.year) && |ds| > 4
    requires more == "-" + Padded(y.month, 2) + "-" + Padded(y.day, 2)
    ensures Format(y) == ds + more
  {
    assert Padded(y.year, 4) == ds;
    var m, d := Padded(y.month, 2), Padded(y.day, 2);
    assert ds + "-" + m + "-" + d == ds + ("-" + m + "-" + d);
  }

  lemma CutAfterFour(ds: string, more: string) returns (tail: string)
    requires |ds| > 4 && AllDigits(ds)
    ensures ds + more == ds[..4] + tail && tail != [] && IsDigit(tail[0])
  {
    tail := ds[4..] + more;
    assert ds == ds[..4] + ds[4..];
    assert tail[0] == ds[4];
  }

  // ---- the check -------------------------------------------------------------------------

  /** The gate says an exception until `x` has expired, on the day `secs` falls in. */
  ghost predicate SaysExpired(x: Date, secs: nat)
    requires Fits(x)
  {
    Less(Stamp(x), SystemToday(secs))
  }

  /** Through the year 9999 the text comparison is the comparison of days; from the year 10000 on,
      when every four-digit date is past, it is right exactly for the dates whose year is at most
      the first four digits of today's. */
  lemma ExpiredMeans(x: Date, secs: nat)
    requires Fits(x) && IsDate(x)
    ensures var days := secs / 86_400; var year := CivilFromDays(days).year;
            if year < 10000 then SaysExpired(x, secs) <==> DayOf(x) < days
            else DayOf(x) < days && (SaysExpired(x, secs) <==> x.year <= LeadingFour(year))
  {
    var days := secs / 86_400;
    var today := CivilFromDays(days);
    TodayIsDate(secs);
    CountedBack(days);
    SameOrder(x, today);
    if today.year < 10000 {
      FormatIsStamp(today);
      StampOrder(x, today);
    } else {
      LongYearOrder(x, today);
    }
  }

  /** The first day it goes wrong: on 10000-01-01 an exception until 9999-12-31, expired since the
      day before, is not reported. */
  lemma WrongFrom10000(last: Date, first: Date)
    requires last == Date(9999, 12, 31) && first == Next(last)
    ensures DayOf(first) == DayOf(last) + 1 > 0
    ensures !SaysExpired(last, DayOf(first) * 86_400)
  {
    LastDays(last, first);
    DateFound(first);
    WholeDays(DayOf(first));
    Standing(last, DayOf(first) * 86_400);
  }

  lemma WholeDays(n: int)
    ensures n * 86_400 / 86_400 == n
  {
  }

  lemma LastDays(last: Date, first: Date)
    requires last == Date(9999, 12, 31) && first == Next(last)
    ensures IsDate(first) && first == Date(10000, 1, 1) && DayOf(first) == DayOf(last) + 1 > 0
  {
    NextIsOneMore(last);
    CountedEpoch();
    CivilEpoch();
    OrderOfDays(Date(1970, 1, 1), last);
  }

  lemma Standing(x: Date, secs: nat)
    requires Fits(x) && IsDate(x) && x.year > 1000 && CivilFromDays(secs / 86_400).year == 10000
    ensures !SaysExpired(x, secs)
  {
    ExpiredMeans(x, secs);
    FirstLongYear();
  }

  lemma FirstLongYear()
    ensures LeadingFour(10000) == 1000
  {
    assert LeadingFour(1000) == 1000;
  }

  datatype Exception = Exception(id: string, reason: string)

  datatype Finding = NoDate(id: string) | Expired(id: string, date: string) | NoBoardItem(id: string)

  predicate IsIdChar(c: char) { IsDigit(c) || IsLower(c) }

  predicate IsAlnum(c: char) { IsDigit(c) || IsAlpha(c) }

  /** Four id characters, a dot and four more, standing alone, around position `dot`. */
  predicate BoardItemAt(b: string, dot: nat) {
    && 4 <= dot && dot + 4 < |b| && b[dot] == '.'
    && (forall k | dot - 4 <= k < dot :: IsIdChar(b[k]))
    && (forall k | dot < k < dot + 5 :: IsIdChar(b[k]))
    && (dot > 4 ==> !IsAlnum(b[dot - 5]))
    && (dot + 5 < |b| ==> !IsAlnum(b[dot + 5]))
  }

  predicate NamesBoardItem(b: string) {
    exists dot | 0 <= dot < |b| :: BoardItemAt(b, dot)
  }

  /** Half of a board id. */
  ghost predicate IsHalf(x: string) { |x| == 4 && forall c | c in x :: 'a' <= c <= 'z' || '0' <= c <= '9' }

  ghost predicate IsAlphanumeric(c: char) { 'a' <= c <= 'z' || 'A' <= c <= 'Z' || '0' <= c <= '9' }

  /** The text holds the id, and no letter or digit touches it. */
  ghost predicate HoldsId(b: string, before: string, x: string, y: string, after: string) {
    && b == before + x + "." + y + after && IsHalf(x) && IsHalf(y)
    && (before != "" ==> !IsAlphanumeric(before[|before| - 1])) && (after != "" ==> !IsAlphanumeric(after[0]))
  }

  /** A board item is named exactly where four characters, a dot and four characters stand alone. */
  lemma BoardItemMeans(b: string)
    ensures NamesBoardItem(b) <==> exists before, x, y, after :: HoldsId(b, before, x, y, after)
  {
    if NamesBoardItem(b) {
      var dot :| 0 <= dot < |b| && BoardItemAt(b, dot);
      IdHeld(b, dot);
    }
    if before, x, y, after :| HoldsId(b, before, x, y, after) { IdFound(b, before, x, y, after); }
  }

  lemma IdHeld(b: string, dot: nat)
    requires BoardItemAt(b, dot)
    ensures HoldsId(b, b[..dot - 4], b[dot - 4..dot], b[dot + 1..dot + 5], b[dot + 5..])
  {
    CutAtDot(b, dot);
    HalfAt(b, dot - 4);
    HalfAt(b, dot + 1);
  }

  lemma CutAtDot(b: string, dot: nat)
    requires 4 <= dot && dot + 4 < |b| && b[dot] == '.'
    ensures b == b[..dot - 4] + b[dot - 4..dot] + "." + b[dot + 1..dot + 5] + b[dot + 5..]
  {
    assert b == b[..dot - 4] + b[dot - 4..dot] + [b[dot]] + b[dot + 1..dot + 5] + b[dot + 5..];
  }

  lemma HalfAt(b: string, i: nat)
    requires i + 4 <= |b|
    ensures IsHalf(b[i..i + 4]) <==> forall k | i <= k < i + 4 :: IsIdChar(b[k])
  {
    var x := b[i..i + 4];
    assert forall k | i <= k < i + 4 :: b[k] == x[k - i] && x[k - i] in x;
    assert forall c | c in x :: exists k :: i <= k < i + 4 && b[k] == c;
  }

  lemma IdFound(b: string, before: string, x: string, y: string, after: string)
    requires HoldsId(b, before, x, y, after)
    ensures BoardItemAt(b, |before| + 4)
  {
    var dot := |before| + 4;
    assert b[dot - 4..dot] == x && b[dot + 1..dot + 5] == y && b[dot] == '.';
    HalfAt(b, dot - 4);
    HalfAt(b, dot + 1);
    assert before != "" ==> b[dot - 5] == before[|before| - 1];
    assert after != "" ==> b[dot + 5] == after[0];
  }

  function FindingsOf(e: Exception, today: string): seq<Finding> {
    match ExpiryDate(e.reason)
    case None => [NoDate(e.id)]
    case Some(date) =>
      (if Less(date, today) then [Expired(e.id, date)] else [])
      + (if NamesBoardItem(e.reason) then [] else [NoBoardItem(e.id)])
  }

  function AllFindings(es: seq<Exception>, today: string): seq<Finding> {
    if es == [] then [] else AllFindings(es[..|es| - 1], today) + FindingsOf(es[|es| - 1], today)
  }

  lemma {:induction false} FoundSomewhere(es: seq<Exception>, today: string, f: Finding)
    ensures f in AllFindings(es, today) <==> exists e | e in es :: f in FindingsOf(e, today)
  {
    if es != [] {
      var init, last := es[..|es| - 1], es[|es| - 1];
      assert es == init + [last];
      FoundSomewhere(init, today, f);
      assert last in es;
      if e :| e in es && f in FindingsOf(e, today) { assert e == last || e in init; }
    }
  }

  /** The reason starts with the date, written in full, and a colon. */
  ghost predicate DatedUntil(e: Exception, x: Date) {
    Fits(x) && IsDate(x) && exists rest :: Opens(e.reason, Stamp(x), rest)
  }

  /** The day is past and the gate can tell: through the year 9999 that is every past day. */
  predicate ReportedPast(x: Date, secs: nat) {
    var days := secs / 86_400;
    DayOf(x) < days && (CivilFromDays(days).year < 10000 || x.year <= LeadingFour(CivilFromDays(days).year))
  }

  /** What the findings say on the day `secs` falls in: who is reported expired, who has no date and
      who names no board item; and that there are none exactly when every exception is dated, not
      reported past, and names its item. */
  ghost predicate Reports(es: seq<Exception>, out: seq<Finding>, secs: nat) {
    && (forall id, x | Fits(x) && IsDate(x) :: ReportsExpired(es, out, id, x, secs))
    && (forall id :: ReportsUndated(es, out, id))
    && (forall id :: ReportsItemless(es, out, id))
    && (out == [] <==> forall e | e in es :: InOrder(e, secs))
  }

  ghost predicate ReportsExpired(es: seq<Exception>, out: seq<Finding>, id: string, x: Date, secs: nat)
    requires Fits(x)
  {
    Expired(id, Stamp(x)) in out <==> exists e | e in es :: e.id == id && DatedUntil(e, x) && ReportedPast(x, secs)
  }

  ghost predicate ReportsUndated(es: seq<Exception>, out: seq<Finding>, id: string) {
    NoDate(id) in out <==> exists e | e in es :: e.id == id && forall x :: !DatedUntil(e, x)
  }

  ghost predicate ReportsItemless(es: seq<Exception>, out: seq<Finding>, id: string) {
    NoBoardItem(id) in out <==> exists e | e in es :: e.id == id && (exists x :: DatedUntil(e, x)) && !NamesBoardItem(e.reason)
  }

  ghost predicate InOrder(e: Exception, secs: nat) {
    (exists x :: DatedUntil(e, x) && !ReportedPast(x, secs)) && NamesBoardItem(e.reason)
  }

  /** Pushes what is wrong with each exception; on the day the clock shows, that is what `Reports`
      says. */
  method Problems(es: seq<Exception>, today: string) returns (out: seq<Finding>)
    ensures out == AllFindings(es, today)
    ensures forall secs | today == SystemToday(secs) :: Reports(es, out, secs)
  {
    out := [];
    for i := 0 to |es|
      invariant out == AllFindings(es[..i], today)
    {
      assert es[..i + 1][..i] == es[..i];
      var e := es[i];
      var date := ExpiryDate(e.reason);
      if date.None? {
        out := out + [NoDate(e.id)];
        continue;
      }
      ghost var before := out;
      if Less(date.value, today) { out := out + [Expired(e.id, date.value)]; }
      if !NamesBoardItem(e.reason) { out := out + [NoBoardItem(e.id)]; }
      assert out == before + FindingsOf(e, today);
    }
    assert es[..|es|] == es;
    forall secs | today == SystemToday(secs) ensures Reports(es, out, secs) { FindingsReport(es, secs); }
  }

  /** A reason is read as the one date it starts with. */
  lemma DateRead(e: Exception, x: Date)
    requires Fits(x) && IsDate(x)
    ensures ExpiryDate(e.reason) == Some(Stamp(x)) <==> DatedUntil(e, x)
  {
    ExpiryMeans(e.reason, Stamp(x));
    if y, rest :| Fits(y) && IsDate(y) && Stamp(x) == Stamp(y) && Opens(e.reason, Stamp(x), rest) {
      assert DatedUntil(e, x);
    }
  }

  lemma SomeDateRead(e: Exception)
    ensures ExpiryDate(e.reason).Some? <==> exists x :: DatedUntil(e, x)
    ensures ExpiryDate(e.reason).Some? ==> exists x :: DatedUntil(e, x) && ExpiryDate(e.reason) == Some(Stamp(x))
  {
    if ExpiryDate(e.reason).Some? {
      ExpiryMeans(e.reason, ExpiryDate(e.reason).value);
      var x, rest :| Fits(x) && IsDate(x) && ExpiryDate(e.reason).value == Stamp(x)
        && Opens(e.reason, ExpiryDate(e.reason).value, rest);
      assert DatedUntil(e, x);
    }
    if x :| DatedUntil(e, x) { DateRead(e, x); }
  }

  lemma PastMeans(x: Date, secs: nat)
    requires Fits(x) && IsDate(x)
    ensures Less(Stamp(x), SystemToday(secs)) <==> ReportedPast(x, secs)
  {
    ExpiredMeans(x, secs);
  }

  lemma ExpiredReported(es: seq<Exception>, secs: nat, id: string, x: Date)
    requires Fits(x) && IsDate(x)
    ensures Expired(id, Stamp(x)) in AllFindings(es, SystemToday(secs)) <==>
            exists e | e in es :: e.id == id && DatedUntil(e, x) && ReportedPast(x, secs)
  {
    var today, f := SystemToday(secs), Expired(id, Stamp(x));
    FoundSomewhere(es, today, f);
    PastMeans(x, secs);
    forall e | e in es ensures f in FindingsOf(e, today) <==> e.id == id && DatedUntil(e, x) && Less(Stamp(x), today) {
      ExpiredFound(e, today, id, x);
    }
  }

  lemma ExpiredFound(e: Exception, today: string, id: string, x: Date)
    requires Fits(x) && IsDate(x)
    ensures Expired(id, Stamp(x)) in FindingsOf(e, today) <==> e.id == id && DatedUntil(e, x) && Less(Stamp(x), today)
  {
    DateRead(e, x);
  }

  lemma DateMissing(e: Exception, today: string, id: string)
    ensures NoDate(id) in FindingsOf(e, today) <==> e.id == id && forall x :: !DatedUntil(e, x)
  {
    SomeDateRead(e);
  }

  lemma ItemMissing(e: Exception, today: string, id: string)
    ensures NoBoardItem(id) in FindingsOf(e, today) <==> e.id == id && (exists x :: DatedUntil(e, x)) && !NamesBoardItem(e.reason)
  {
    SomeDateRead(e);
  }

  lemma NoDateReported(es: seq<Exception>, today: string, id: string)
    ensures NoDate(id) in AllFindings(es, today) <==> exists e | e in es :: e.id == id && forall x :: !DatedUntil(e, x)
  {
    FoundSomewhere(es, today, NoDate(id));
    forall e | e in es ensures NoDate(id) in FindingsOf(e, today) <==> e.id == id && forall x :: !DatedUntil(e, x) {
      DateMissing(e, today, id);
    }
  }

  lemma NoItemReported(es: seq<Exception>, today: string, id: string)
    ensures NoBoardItem(id) in AllFindings(es, today) <==>
            exists e | e in es :: e.id == id && (exists x :: DatedUntil(e, x)) && !NamesBoardItem(e.reason)
  {
    FoundSomewhere(es, today, NoBoardItem(id));
    forall e | e in es
      ensures NoBoardItem(id) in FindingsOf(e, today) <==> e.id == id && (exists x :: DatedUntil(e, x)) && !NamesBoardItem(e.reason) {
      ItemMissing(e, today, id);
    }
  }

  lemma NothingWrong(e: Exception, secs: nat)
    ensures FindingsOf(e, SystemToday(secs)) == [] <==> InOrder(e, secs)
  {
    SomeDateRead(e);
    if ExpiryDate(e.reason).Some? {
      var x :| DatedUntil(e, x) && ExpiryDate(e.reason) == Some(Stamp(x));
      PastMeans(x, secs);
      forall y | DatedUntil(e, y) ensures Stamp(y) == Stamp(x) && (ReportedPast(y, secs) <==> ReportedPast(x, secs)) {
        DateRead(e, y);
        PastMeans(y, secs);
      }
    }
  }

  lemma {:induction false} NothingFound(es: seq<Exception>, secs: nat)
    ensures AllFindings(es, SystemToday(secs)) == [] <==> forall e | e in es :: InOrder(e, secs)
  {
    if es != [] {
      var init, last := es[..|es| - 1], es[|es| - 1];
      assert es == init + [last] && last in es;
      NothingFound(init, secs);
      NothingWrong(last, secs);
    }
  }

  lemma FindingsReport(es: seq<Exception>, secs: nat)
    ensures Reports(es, AllFindings(es, SystemToday(secs)), secs)
  {
    var out := AllFindings(es, SystemToday(secs));
    forall id, x | Fits(x) && IsDate(x) ensures ReportsExpired(es, out, id, x, secs) { ExpiredReported(es, secs, id, x); }
    forall id ensures ReportsUndated(es, out, id) { NoDateReported(es, SystemToday(secs), id); }
    forall id ensures ReportsItemless(es, out, id) { NoItemReported(es, SystemToday(secs), id); }
    NothingFound(es, secs);
  }

  /** The gate, end to end: through 9999-12-31 the list of findings reports an exception expired
      exactly when one with that id is dated until a day before today. */
  lemma ReportedExactlyWhenPast(es: seq<Exception>, id: string, x: Date, secs: nat)
    requires Fits(x) && IsDate(x) && CivilFromDays(secs / 86_400).year < 10000
    ensures Expired(id, Stamp(x)) in AllFindings(es, SystemToday(secs)) <==>
            DayOf(x) < secs / 86_400 && exists e | e in es :: e.id == id && DatedUntil(e, x)
  {
    ExpiredReported(es, secs, id, x);
  }
}
