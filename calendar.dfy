/**
 * The calendar-file encoder: choose the display zone (falling back to UTC),
 * shift both times back by the zone's whole-hour offset, hand the event to
 * the serializer, and rewrite the start (and, when it too is a midnight, the
 * end) of an all-day event from the DATE-TIME form of section 3.3.5 of
 * RFC 5545 to the DATE form of section 3.3.4 with the VALUE=DATE parameter
 * of section 3.2.20.
 *
 * The zone database and the serializer are inputs: the document the
 * serializer writes for the planned event is taken as given.
 */
module Calendar {
  import opened Wrappers
  import opened Text
  import opened Time
  import Civil
  import OpenAI

  const FallbackTimezone := "UTC"

  // ---------------------------------------------------------------------------
  // Offset compensation
  // ---------------------------------------------------------------------------

  /** Go's integer division `a / b` for a positive divisor: the quotient truncated toward zero. */
  function TruncDiv(a: int, b: int): int
    requires b > 0
  {
    if a >= 0 then a / b else -((-a) / b)
  }

  /**
   * `offset / 3600` with Go's division: the whole hours of the offset,
   * truncated toward zero, so the remainder has the offset's sign and is
   * less than an hour.
   */
  function OffsetHours(offset: int): (h: int)
    ensures 0 <= h * SecondsPerHour <= offset || offset <= h * SecondsPerHour <= 0
    ensures -SecondsPerHour < offset - h * SecondsPerHour < SecondsPerHour
  {
    TruncDiv(offset, SecondsPerHour)
  }

  /** The two facts above pin the whole hours down: no other count of hours has them. */
  lemma OffsetHoursUnique(offset: int, h: int)
    requires 0 <= h * SecondsPerHour <= offset || offset <= h * SecondsPerHour <= 0
    requires -SecondsPerHour < offset - h * SecondsPerHour < SecondsPerHour
    ensures h == OffsetHours(offset)
  {
  }

  /** Half-hour zones lose their half hour toward zero: -3:30 gives -3, +5:30 and +5:45 give +5. */
  lemma OffsetHoursExamples()
    ensures OffsetHours(-12600) == -3
    ensures OffsetHours(19800) == 5
    ensures OffsetHours(20700) == 5
    ensures OffsetHours(-34200) == -9
  {
  }

  // ---------------------------------------------------------------------------
  // The plan handed to the serializer
  // ---------------------------------------------------------------------------

  /** The zone name written to X-DISPLAY-TIMEZONE, the whole-hour shift and the shifted times. */
  datatype IcsPlan = IcsPlan(displayTimezone: string, offsetHours: int, start: Timestamp, end: Timestamp)

  /**
   * Resolves the zone (an unknown name becomes "UTC" with offset 0) and moves
   * both times back by the zone's whole hours, in their own locations.
   */
  function PlanIcs(event: OpenAI.Event, timezone: string, zones: ZoneDb): (p: IcsPlan)
    ensures zones(timezone).None? ==>
      p.displayTimezone == FallbackTimezone && p.offsetHours == 0 && p.start == event.start && p.end == event.end
    ensures zones(timezone).Some? ==>
      p.displayTimezone == timezone && p.offsetHours == OffsetHours(zones(timezone).value)
    ensures event.start.utc - p.start.utc == p.offsetHours * SecondsPerHour
    ensures event.end.utc - p.end.utc == p.offsetHours * SecondsPerHour
    ensures p.start.offset == event.start.offset && p.end.offset == event.end.offset
  {
    var (name, offset) := match zones(timezone) {
      case None => (FallbackTimezone, 0)
      case Some(o) => (timezone, o)
    };
    var hours := OffsetHours(offset);
    IcsPlan(name, hours,
            AddSeconds(event.start, -hours * SecondsPerHour),
            AddSeconds(event.end, -hours * SecondsPerHour))
  }

  /** The shift moves start and end together: the event keeps its duration. */
  lemma PlanKeepsDuration(event: OpenAI.Event, timezone: string, zones: ZoneDb)
    ensures var p := PlanIcs(event, timezone, zones);
      p.end.utc - p.start.utc == event.end.utc - event.start.utc
  {
  }

  // ---------------------------------------------------------------------------
  // DATE-TIME and DATE text
  // ---------------------------------------------------------------------------

  /** Go's `2006` for a non-negative year: four digits, more when the year has more. */
  function PadYear(n: nat): (s: string)
    ensures AllDigits(s) && |s| >= 4
    ensures n < 10000 <==> |s| == 4
  {
    if n < 10000 then Fixed4(n)
    else
      WideNumber(n);
      NatToString(n)
  }

  /** A number from 10000 on has at least five digits. */
  lemma WideNumber(n: nat)
    requires n >= 10000
    ensures |NatToString(n)| >= 5
  {
    var n1 := n / 10;
    var n2 := n1 / 10;
    var n3 := n2 / 10;
    assert |NatToString(n)| == |NatToString(n1)| + 1;
    assert |NatToString(n1)| == |NatToString(n2)| + 1;
    assert |NatToString(n2)| == |NatToString(n3)| + 1;
    assert n3 >= 10;
  }

  /** Go's `2006`: a minus sign before the padded magnitude for years before year 0. */
  function FormatYear(y: int): (s: string)
    ensures |s| >= 4
    ensures 0 <= y < 10000 ==> s == Fixed4(y)
    ensures y < 0 ==> s[0] == '-'
  {
    if y < 0 then "-" + PadYear(-y) else PadYear(y)
  }

  /** `t.Format("20060102T150405Z")`: the clock of `t`'s own location followed by a literal `Z`. */
  function FormatDateTime(t: Timestamp): string {
    var d := Date(t);
    FormatYear(d.year) + Fixed2(d.month) + Fixed2(d.day)
      + "T" + Fixed2(Hour(t)) + Fixed2(Minute(t)) + Fixed2(Second(t)) + "Z"
  }

  /** `t.Format("20060102")`: the date of `t`'s own location. */
  function FormatDate(t: Timestamp): string {
    var d := Date(t);
    FormatYear(d.year) + Fixed2(d.month) + Fixed2(d.day)
  }

  /** `n` decimal digits starting at `i`. */
  predicate DigitsAt(s: string, i: nat, n: nat) {
    i + n <= |s| && forall k :: i <= k < i + n ==> IsDigit(s[k])
  }

  /** Reads a DATE (section 3.3.4 of RFC 5545) back into its day count; `None` when it is not a real date. */
  function ParseDate(s: string): (r: Option<int>)
    ensures r.Some? ==> |s| == 8
  {
    if |s| == 8 && DigitsAt(s, 0, 8) then
      var d := Civil.Date(Digits4(s, 0), Digits2(s, 4), Digits2(s, 6));
      if Civil.ValidDate(d) then Some(Civil.DaysFromCivil(d)) else None
    else None
  }

  /**
   * Reads a UTC DATE-TIME (form 2 of section 3.3.5 of RFC 5545) back into
   * seconds since 1970-01-01T00:00:00Z; `None` when it is malformed.
   */
  function ParseDateTime(s: string): (r: Option<int>)
    ensures r.Some? ==> |s| == 16 && s[8] == 'T' && s[15] == 'Z'
  {
    if |s| == 16 && DigitsAt(s, 0, 8) && s[8] == 'T' && DigitsAt(s, 9, 6) && s[15] == 'Z' then
      var d := Civil.Date(Digits4(s, 0), Digits2(s, 4), Digits2(s, 6));
      var h, m, sec := Digits2(s, 9), Digits2(s, 11), Digits2(s, 13);
      if Civil.ValidDate(d) && h < 24 && m < 60 && sec < 60 then
        Some(Civil.DaysFromCivil(d) * SecondsPerDay + h * SecondsPerHour + m * 60 + sec)
      else None
    else None
  }

  /** The date of a four-digit year reads back as the local day it was formatted from. */
  lemma FormatDateRoundTrip(t: Timestamp)
    requires 0 <= Date(t).year < 10000
    ensures ParseDate(FormatDate(t)) == Some(LocalDay(t))
  {
    var d := Date(t);
    var s := FormatDate(t);
    assert s == Fixed4(d.year) + Fixed2(d.month) + Fixed2(d.day);
    Fixed4RoundTrip(d.year, s, 0);
    Fixed2RoundTrip(d.month, s, 4);
    Fixed2RoundTrip(d.day, s, 6);
    Civil.CivilFromDaysValid(LocalDay(t));
    Civil.DaysFromCivilRoundTrip(LocalDay(t));
  }

  /** Eight digits of a four-digit year, a month and a day. */
  lemma DateDigits(y: nat, mo: nat, d: nat)
    requires y < 10000 && mo < 100 && d < 100
    ensures AllDigits(Fixed4(y) + Fixed2(mo) + Fixed2(d))
  {
    var s := Fixed4(y) + Fixed2(mo) + Fixed2(d);
    forall k | 0 <= k < |s|
      ensures IsDigit(s[k])
    {
      if k < 4 {
        assert s[k] == Fixed4(y)[k];
      } else if k < 6 {
        assert s[k] == Fixed2(mo)[k - 4];
      } else {
        assert s[k] == Fixed2(d)[k - 6];
      }
    }
  }

  /** Reading the text built from a valid date and clock gives back those seconds. */
  lemma ParseDateTimeOfParts(s: string, date: Civil.Date, h: nat, mi: nat, se: nat)
    requires 0 <= date.year < 10000 && Civil.ValidDate(date) && h < 24 && mi < 60 && se < 60
    requires s == Fixed4(date.year) + Fixed2(date.month) + Fixed2(date.day)
      + "T" + Fixed2(h) + Fixed2(mi) + Fixed2(se) + "Z"
    ensures ParseDateTime(s) == Some(Civil.DaysFromCivil(date) * SecondsPerDay + h * SecondsPerHour + mi * 60 + se)
  {
    DateFieldsOfParts(s, date, h, mi, se);
    ClockFieldsOfParts(s, date, h, mi, se);
  }

  /** The first eight characters of such a text are the digits of the date. */
  lemma DateFieldsOfParts(s: string, date: Civil.Date, h: nat, mi: nat, se: nat)
    requires 0 <= date.year < 10000 && Civil.ValidDate(date) && h < 24 && mi < 60 && se < 60
    requires s == Fixed4(date.year) + Fixed2(date.month) + Fixed2(date.day)
      + "T" + Fixed2(h) + Fixed2(mi) + Fixed2(se) + "Z"
    ensures DigitsAt(s, 0, 8) && s[8] == 'T'
    ensures Digits4(s, 0) == date.year && Digits2(s, 4) == date.month && Digits2(s, 6) == date.day
  {
    assert s[0..4] == Fixed4(date.year);
    assert s[4..6] == Fixed2(date.month);
    assert s[6..8] == Fixed2(date.day);
    Fixed4RoundTrip(date.year, s, 0);
    Fixed2RoundTrip(date.month, s, 4);
    Fixed2RoundTrip(date.day, s, 6);
  }

  /** Characters 9 to 14 of such a text are the digits of the clock, and it ends in `Z`. */
  lemma ClockFieldsOfParts(s: string, date: Civil.Date, h: nat, mi: nat, se: nat)
    requires 0 <= date.year < 10000 && Civil.ValidDate(date) && h < 24 && mi < 60 && se < 60
    requires s == Fixed4(date.year) + Fixed2(date.month) + Fixed2(date.day)
      + "T" + Fixed2(h) + Fixed2(mi) + Fixed2(se) + "Z"
    ensures |s| == 16 && DigitsAt(s, 9, 6) && s[15] == 'Z'
    ensures Digits2(s, 9) == h && Digits2(s, 11) == mi && Digits2(s, 13) == se
  {
    assert s[9..11] == Fixed2(h);
    assert s[11..13] == Fixed2(mi);
    assert s[13..15] == Fixed2(se);
    Fixed2RoundTrip(h, s, 9);
    Fixed2RoundTrip(mi, s, 11);
    Fixed2RoundTrip(se, s, 13);
  }

  /**
   * The DATE-TIME of a four-digit year reads back as the local wall-clock
   * seconds: the text labels the local clock as UTC.
   */
  lemma FormatDateTimeRoundTrip(t: Timestamp)
    requires 0 <= Date(t).year < 10000
    ensures ParseDateTime(FormatDateTime(t)) == Some(LocalSeconds(t))
  {
    var d := Date(t);
    Civil.CivilFromDaysValid(LocalDay(t));
    Civil.DaysFromCivilRoundTrip(LocalDay(t));
    IsMidnightIffWholeDay(t);
    ParseDateTimeOfParts(FormatDateTime(t), d, Hour(t), Minute(t), Second(t));
  }

  /** The DATE text is the DATE-TIME text up to the `T`. */
  lemma FormatDateIsPrefix(t: Timestamp)
    ensures var dt := FormatDateTime(t);
      |FormatDate(t)| + 8 == |dt| && FormatDate(t) == dt[..|FormatDate(t)|]
    ensures 0 <= Date(t).year < 10000 ==> FormatDate(t) == FormatDateTime(t)[..8]
  {
  }

  /** Different local clock readings give different DATE-TIME texts. */
  lemma FormatDateTimeInjective(t1: Timestamp, t2: Timestamp)
    requires 0 <= Date(t1).year < 10000 && 0 <= Date(t2).year < 10000
    requires FormatDateTime(t1) == FormatDateTime(t2)
    ensures LocalSeconds(t1) == LocalSeconds(t2)
  {
    FormatDateTimeRoundTrip(t1);
    FormatDateTimeRoundTrip(t2);
  }

  // ---------------------------------------------------------------------------
  // The all-day rewrite
  // ---------------------------------------------------------------------------

  /** The start and end properties, sections 3.8.2.4 and 3.8.2.2 of RFC 5545. */
  const DtStart := "DTSTART"
  const DtEnd := "DTEND"

  /** A property holding a UTC DATE-TIME: `NAME:<date-time>`. */
  function DateTimeLine(name: string, t: Timestamp): string {
    name + ":" + FormatDateTime(t)
  }

  /** The same property as a DATE: `NAME;VALUE=DATE:<date>`. */
  function DateLine(name: string, t: Timestamp): string {
    name + ";VALUE=DATE:" + FormatDate(t)
  }

  /**
   * The textual rewrite of the serialized document: only when the original
   * start is a local midnight, every `DTSTART:<date-time>` of the shifted
   * start becomes `DTSTART;VALUE=DATE:<date>`, and only when the original end
   * is a midnight too, the same happens to `DTEND`.
   */
  function RewriteAllDay(doc: string, event: OpenAI.Event, p: IcsPlan): (r: string)
    ensures !IsMidnight(event.start) ==> r == doc
  {
    if IsMidnight(event.start) then
      var withStart := ReplaceAll(doc, DateTimeLine(DtStart, p.start), DateLine(DtStart, p.start));
      if IsMidnight(event.end) then ReplaceAll(withStart, DateTimeLine(DtEnd, p.end), DateLine(DtEnd, p.end))
      else withStart
    else doc
  }

  datatype IcsError = SerializeFailed

  /** The serializer: the document written for the event with the planned zone and times, or `None` on failure. */
  type Serializer = (OpenAI.Event, IcsPlan) -> Option<string>

  /**
   * `GenerateICS`: fails only when the serializer does; a zone name that does
   * not resolve never causes an error, and a start that is not a midnight
   * leaves the serialized document exactly as written.
   */
  function GenerateIcs(event: OpenAI.Event, timezone: string, zones: ZoneDb, serialize: Serializer)
    : (r: Result<seq<char>, IcsError>)
    ensures r.Err? <==> serialize(event, PlanIcs(event, timezone, zones)).None?
    ensures r.Ok? && !IsMidnight(event.start) ==> r.value == serialize(event, PlanIcs(event, timezone, zones)).value
    ensures r.Ok? ==> r.value == RewriteAllDay(serialize(event, PlanIcs(event, timezone, zones)).value, event, PlanIcs(event, timezone, zones))
  {
    var p := PlanIcs(event, timezone, zones);
    match serialize(event, p)
    case None => Err(SerializeFailed)
    case Some(doc) => Ok(RewriteAllDay(doc, event, p))
  }

  /**
   * With a midnight start and a timed end, a document holding the start's
   * DATE-TIME line once and the end's DATE-TIME line after it gets only the
   * start line rewritten: the end line stays a DATE-TIME.
   */
  lemma EndRewrittenOnlyWithStart(pre: string, mid: string, post: string, event: OpenAI.Event, p: IcsPlan)
    requires IsMidnight(event.start) && !IsMidnight(event.end)
    requires forall i: nat :: i < |pre| ==>
      !OccursAt(pre + DateTimeLine(DtStart, p.start) + (mid + DateTimeLine(DtEnd, p.end) + post), DateTimeLine(DtStart, p.start), i)
    requires !Occurs(mid + DateTimeLine(DtEnd, p.end) + post, DateTimeLine(DtStart, p.start))
    ensures RewriteAllDay(pre + DateTimeLine(DtStart, p.start) + mid + DateTimeLine(DtEnd, p.end) + post, event, p)
      == pre + DateLine(DtStart, p.start) + mid + DateTimeLine(DtEnd, p.end) + post
  {
    var s, s', e := DateTimeLine(DtStart, p.start), DateLine(DtStart, p.start), DateTimeLine(DtEnd, p.end);
    RewriteChangesOnlyTheStartLine(pre, mid + e + post, event, p);
    Regroup(pre, s, mid, e, post);
    Regroup(pre, s', mid, e, post);
  }

  /** Five texts joined left to right are the first two followed by the last three. */
  lemma Regroup(a: string, b: string, c: string, d: string, e: string)
    ensures a + b + c + d + e == a + b + (c + d + e)
  {
  }

  /** A document without the DATE-TIME lines of the shifted times comes back unchanged. */
  lemma RewriteWithoutMatchesIsIdentity(doc: string, event: OpenAI.Event, p: IcsPlan)
    requires !Occurs(doc, DateTimeLine(DtStart, p.start)) && !Occurs(doc, DateTimeLine(DtEnd, p.end))
    ensures RewriteAllDay(doc, event, p) == doc
  {
    ReplaceAllAbsent(doc, DateTimeLine(DtStart, p.start), DateLine(DtStart, p.start));
    ReplaceAllAbsent(doc, DateTimeLine(DtEnd, p.end), DateLine(DtEnd, p.end));
  }

  /**
   * With a single `DTSTART:` line for the shifted start and no `DTEND:` line
   * to match, the rewrite changes that line and nothing around it.
   */
  lemma RewriteChangesOnlyTheStartLine(a: string, b: string, event: OpenAI.Event, p: IcsPlan)
    requires IsMidnight(event.start)
    requires forall i: nat :: i < |a| ==> !OccursAt(a + DateTimeLine(DtStart, p.start) + b, DateTimeLine(DtStart, p.start), i)
    requires !Occurs(b, DateTimeLine(DtStart, p.start))
    requires !IsMidnight(event.end) || !Occurs(a + DateLine(DtStart, p.start) + b, DateTimeLine(DtEnd, p.end))
    ensures RewriteAllDay(a + DateTimeLine(DtStart, p.start) + b, event, p) == a + DateLine(DtStart, p.start) + b
  {
    ReplaceAllFirst(a, DateTimeLine(DtStart, p.start), DateLine(DtStart, p.start), b);
    ReplaceAllAbsent(b, DateTimeLine(DtStart, p.start), DateLine(DtStart, p.start));
    if IsMidnight(event.end) {
      ReplaceAllAbsent(a + DateLine(DtStart, p.start) + b, DateTimeLine(DtEnd, p.end), DateLine(DtEnd, p.end));
    }
  }

  /** For a four-digit year the DATE-TIME text ends in its only `Z`, and the DATE text has none. */
  lemma ZOnlyAtEnd(t: Timestamp)
    requires 0 <= Date(t).year < 10000
    ensures var dt := FormatDateTime(t);
      |dt| == 16 && dt[15] == 'Z' && 'Z' !in dt[..15]
    ensures |FormatDate(t)| == 8 && 'Z' !in FormatDate(t)
  {
    var d := Date(t);
    var ds := FormatDate(t);
    var dt := FormatDateTime(t);
    Civil.CivilFromDaysValid(LocalDay(t));
    DateDigits(d.year, d.month, d.day);
    assert dt == ds + "T" + Fixed2(Hour(t)) + Fixed2(Minute(t)) + Fixed2(Second(t)) + "Z";
    forall k | 0 <= k < 15
      ensures dt[k] != 'Z'
    {
      if k < 8 {
        assert dt[k] == ds[k];
      } else if 9 <= k < 11 {
        assert dt[k] == Fixed2(Hour(t))[k - 9];
      } else if 11 <= k < 13 {
        assert dt[k] == Fixed2(Minute(t))[k - 11];
      } else if 13 <= k {
        assert dt[k] == Fixed2(Second(t))[k - 13];
      }
    }
    assert forall k :: 0 <= k < 15 ==> dt[..15][k] == dt[k];
  }

  /**
   * A document holding the DATE-TIME start line and then the DATE-TIME end
   * line, each ended by CRLF: with both times at midnight, both lines come
   * back as DATEs and the line breaks stay.
   */
  lemma RewriteStartAndEndLines(event: OpenAI.Event, p: IcsPlan)
    requires IsMidnight(event.start) && IsMidnight(event.end)
    requires 0 <= Date(p.start).year < 10000 && 0 <= Date(p.end).year < 10000
    ensures var crlf := "\r\n";
      RewriteAllDay(DateTimeLine(DtStart, p.start) + crlf + DateTimeLine(DtEnd, p.end) + crlf, event, p)
        == DateLine(DtStart, p.start) + crlf + DateLine(DtEnd, p.end) + crlf
  {
    var s, s' := DateTimeLine(DtStart, p.start), DateLine(DtStart, p.start);
    var e, e' := DateTimeLine(DtEnd, p.end), DateLine(DtEnd, p.end);
    NoStartLineAfter(p);
    EndLineEndsInItsOnlyZ(p);
    RewriteLeadingLine(s, s', e);
    RewriteTrailingLine(s', e, e');
  }

  /**
   * `GenerateICS` of an all-day event whose serialized document is its
   * DATE-TIME start and end lines, each ended by CRLF, hands back the two
   * lines in DATE form.
   */
  lemma GenerateIcsAllDay(event: OpenAI.Event, timezone: string, zones: ZoneDb, serialize: Serializer)
    requires IsMidnight(event.start) && IsMidnight(event.end)
    requires var p := PlanIcs(event, timezone, zones);
      && 0 <= Date(p.start).year < 10000 && 0 <= Date(p.end).year < 10000
      && serialize(event, p) == Some(DateTimeLine(DtStart, p.start) + "\r\n" + DateTimeLine(DtEnd, p.end) + "\r\n")
    ensures var p := PlanIcs(event, timezone, zones);
      GenerateIcs(event, timezone, zones, serialize) == Ok(DateLine(DtStart, p.start) + "\r\n" + DateLine(DtEnd, p.end) + "\r\n")
  {
    RewriteStartAndEndLines(event, PlanIcs(event, timezone, zones));
  }

  /** The first of two CRLF-ended lines, when the rest does not hold it, is the only one replaced. */
  lemma RewriteLeadingLine(s: string, s': string, e: string)
    requires s != [] && !Occurs("\r\n" + e + "\r\n", s)
    ensures ReplaceAll(s + "\r\n" + e + "\r\n", s, s') == s' + "\r\n" + e + "\r\n"
  {
    var rest := "\r\n" + e + "\r\n";
    ReplaceAllLeading(s, s', rest);
    assert s + "\r\n" + e + "\r\n" == s + rest;
    assert s' + "\r\n" + e + "\r\n" == s' + rest;
  }

  /** The second of two CRLF-ended lines, whose last character it holds only there and the first line lacks, is the only one replaced. */
  lemma RewriteTrailingLine(s': string, e: string, e': string)
    requires |e| > 2 && e[|e| - 1] !in s' + "\r\n" && e[|e| - 1] !in e[..|e| - 1]
    ensures ReplaceAll(s' + "\r\n" + e + "\r\n", e, e') == s' + "\r\n" + e' + "\r\n"
  {
    var crlf := "\r\n";
    NoEarlierOccurrence(s' + crlf, e, crlf);
    ReplaceAllFirst(s' + crlf, e, e', crlf);
    assert ReplaceAll(crlf, e, e') == crlf;
  }

  /** The CRLF, the end line and the CRLF after the start line do not hold the start line. */
  lemma NoStartLineAfter(p: IcsPlan)
    requires 0 <= Date(p.start).year < 10000 && 0 <= Date(p.end).year < 10000
    ensures !Occurs("\r\n" + DateTimeLine(DtEnd, p.end) + "\r\n", DateTimeLine(DtStart, p.start))
  {
    var s := DateTimeLine(DtStart, p.start);
    var e := DateTimeLine(DtEnd, p.end);
    var rest := "\r\n" + e + "\r\n";
    ZOnlyAtEnd(p.start);
    ZOnlyAtEnd(p.end);
    forall i: nat ensures !OccursAt(rest, s, i) {
      if i + |s| <= |rest| {
        if i < 2 {
          assert rest[i..i + |s|][0] == rest[i] != s[0];
        } else {
          assert rest[i..i + |s|][2] == e[2] != s[2];
        }
      }
    }
  }

  /** The end line's `Z` is its last character, found neither earlier in it nor in the DATE start line and its CRLF. */
  lemma EndLineEndsInItsOnlyZ(p: IcsPlan)
    requires 0 <= Date(p.start).year < 10000 && 0 <= Date(p.end).year < 10000
    ensures var e := DateTimeLine(DtEnd, p.end);
      |e| > 2 && e[|e| - 1] == 'Z' && 'Z' !in e[..|e| - 1] && 'Z' !in DateLine(DtStart, p.start) + "\r\n"
  {
    var before := DateLine(DtStart, p.start) + "\r\n";
    var e := DateTimeLine(DtEnd, p.end);
    ZOnlyAtEnd(p.start);
    ZOnlyAtEnd(p.end);
    assert 'Z' !in before by {
      assert forall k :: 0 <= k < |before| ==> before[k] == (DtStart + ";VALUE=DATE:" + FormatDate(p.start) + "\r\n")[k];
    }
    assert e[..|e| - 1] == DtEnd + ":" + FormatDateTime(p.end)[..15];
  }

  /**
   * For a midnight start the DATE written is the shifted start's date: the
   * day before for a zone east of UTC (one to 23 whole hours), the same day
   * for UTC and zones west of it.
   */
  lemma AllDayDateOfShiftedStart(event: OpenAI.Event, timezone: string, zones: ZoneDb)
    requires IsMidnight(event.start)
    requires var h := PlanIcs(event, timezone, zones).offsetHours; -24 < h < 24
    requires 0 <= Date(PlanIcs(event, timezone, zones).start).year < 10000
    ensures var p := PlanIcs(event, timezone, zones);
      && (p.offsetHours > 0 ==> ParseDate(FormatDate(p.start)) == Some(LocalDay(event.start) - 1))
      && (p.offsetHours <= 0 ==> ParseDate(FormatDate(p.start)) == Some(LocalDay(event.start)))
  {
    var p := PlanIcs(event, timezone, zones);
    IsMidnightIffWholeDay(event.start);
    var k := LocalDay(event.start);
    var shift := p.offsetHours * SecondsPerHour;
    assert -SecondsPerDay < shift < SecondsPerDay && (shift > 0 <==> p.offsetHours > 0);
    assert LocalSeconds(p.start) == k * SecondsPerDay - shift;
    DayOfShiftedMidnight(k, shift);
    assert LocalDay(p.start) == (k * SecondsPerDay - shift) / SecondsPerDay;
    FormatDateRoundTrip(p.start);
  }

  /** Moving a midnight back by less than a day lands on the previous day; moving it forward stays on the day. */
  lemma DayOfShiftedMidnight(k: int, shift: int)
    requires -SecondsPerDay < shift < SecondsPerDay
    ensures shift > 0 ==> (k * SecondsPerDay - shift) / SecondsPerDay == k - 1
    ensures shift <= 0 ==> (k * SecondsPerDay - shift) / SecondsPerDay == k
  {
    if shift > 0 {
      assert k * SecondsPerDay - shift == (k - 1) * SecondsPerDay + (SecondsPerDay - shift);
    } else {
      assert k * SecondsPerDay - shift == k * SecondsPerDay + (-shift);
    }
  }

  /** A day count whose date is known: the inverse direction of the civil conversion. */
  lemma DateOfDay(z: int, d: Civil.Date)
    requires Civil.ValidDate(d) && Civil.DaysFromCivil(d) == z
    ensures Civil.CivilFromDays(z) == d
  {
    Civil.CivilFromDaysRoundTrip(d);
  }

  /** An all-day event on 2025-06-01 (ending at midnight on 2025-06-02) in UTC. */
  lemma UtcAllDayExample(zones: ZoneDb)
    requires zones("UTC") == Some(0)
    ensures var event := OpenAI.Event("t", "", "", Timestamp(1748736000, 0), Timestamp(1748822400, 0));
      var p := PlanIcs(event, "UTC", zones);
      && p.displayTimezone == "UTC" && p.start == event.start && p.end == event.end
      && DateTimeLine(DtStart, p.start) == "DTSTART:20250601T000000Z"
      && DateLine(DtStart, p.start) == "DTSTART;VALUE=DATE:20250601"
      && DateTimeLine(DtEnd, p.end) == "DTEND:20250602T000000Z"
      && DateLine(DtEnd, p.end) == "DTEND;VALUE=DATE:20250602"
  {
    var event := OpenAI.Event("t", "", "", Timestamp(1748736000, 0), Timestamp(1748822400, 0));
    var p := PlanIcs(event, "UTC", zones);
    assert OffsetHours(0) == 0;
    assert p.start == event.start && p.end == event.end;
    FirstOfJune(p.start);
    SecondOfJune(p.end);
  }

  /**
   * The same event as a document of its two DATE-TIME lines: both times are
   * midnights, so the all-day rewrite turns both lines into DATEs.
   */
  lemma UtcAllDayDocument(event: OpenAI.Event, zones: ZoneDb, doc: string)
    requires zones("UTC") == Some(0)
    requires event.start == Timestamp(1748736000, 0) && event.end == Timestamp(1748822400, 0)
    requires doc == "DTSTART:20250601T000000Z\r\nDTEND:20250602T000000Z\r\n"
    ensures IsMidnight(event.start) && IsMidnight(event.end)
    ensures RewriteAllDay(doc, event, PlanIcs(event, "UTC", zones))
      == "DTSTART;VALUE=DATE:20250601\r\nDTEND;VALUE=DATE:20250602\r\n"
  {
    var p := PlanIcs(event, "UTC", zones);
    assert OffsetHours(0) == 0;
    assert p.start == event.start && p.end == event.end;
    ClockOfMidnight(1748736000, 20240, Civil.Date(2025, 6, 1));
    ClockOfMidnight(1748822400, 20241, Civil.Date(2025, 6, 2));
    FirstOfJune(p.start);
    SecondOfJune(p.end);
    RewriteStartAndEndLines(event, p);
    JoinedDateTimeLines(DateTimeLine(DtStart, p.start), DateTimeLine(DtEnd, p.end));
    JoinedDateLines(DateLine(DtStart, p.start), DateLine(DtEnd, p.end));
  }

  /** `GenerateICS` of that event, when the serializer writes the two DATE-TIME lines, hands back the two DATE lines. */
  lemma UtcAllDayIcs(event: OpenAI.Event, zones: ZoneDb, serialize: Serializer)
    requires zones("UTC") == Some(0)
    requires event.start == Timestamp(1748736000, 0) && event.end == Timestamp(1748822400, 0)
    requires serialize(event, PlanIcs(event, "UTC", zones)) == Some("DTSTART:20250601T000000Z\r\nDTEND:20250602T000000Z\r\n")
    ensures GenerateIcs(event, "UTC", zones, serialize) == Ok("DTSTART;VALUE=DATE:20250601\r\nDTEND;VALUE=DATE:20250602\r\n")
  {
    UtcAllDayDocument(event, zones, "DTSTART:20250601T000000Z\r\nDTEND:20250602T000000Z\r\n");
  }

  /** The two DATE-TIME lines joined by CRLFs. */
  lemma JoinedDateTimeLines(s: string, e: string)
    requires s == "DTSTART:20250601T000000Z" && e == "DTEND:20250602T000000Z"
    ensures s + "\r\n" + e + "\r\n" == "DTSTART:20250601T000000Z\r\nDTEND:20250602T000000Z\r\n"
  {
  }

  /** The two DATE lines joined by CRLFs. */
  lemma JoinedDateLines(s: string, e: string)
    requires s == "DTSTART;VALUE=DATE:20250601" && e == "DTEND;VALUE=DATE:20250602"
    ensures s + "\r\n" + e + "\r\n" == "DTSTART;VALUE=DATE:20250601\r\nDTEND;VALUE=DATE:20250602\r\n"
  {
  }

  /** The same start in a zone three hours east of UTC is written as the previous day, 2025-05-31. */
  lemma EastZoneAllDayExample(zones: ZoneDb)
    requires zones("Europe/Moscow") == Some(10800)
    ensures var event := OpenAI.Event("t", "", "", Timestamp(1748736000, 0), Timestamp(1748822400, 0));
      var p := PlanIcs(event, "Europe/Moscow", zones);
      && p.offsetHours == 3
      && DateTimeLine(DtStart, p.start) == "DTSTART:20250531T210000Z"
      && DateLine(DtStart, p.start) == "DTSTART;VALUE=DATE:20250531"
  {
    EveningOfMay31(Timestamp(1748725200, 0));
  }

  /** 2025-06-01 00:00 UTC as the start: its DATE-TIME and DATE lines. */
  lemma FirstOfJune(t: Timestamp)
    requires t == Timestamp(1748736000, 0)
    ensures DateTimeLine(DtStart, t) == "DTSTART:20250601T000000Z"
    ensures DateLine(DtStart, t) == "DTSTART;VALUE=DATE:20250601"
  {
    FirstOfJuneText(t);
    LinesOfText(DtStart, t, "20250601T000000Z", "20250601");
    FirstOfJuneLiterals();
  }

  /** The literal joins behind `FirstOfJune`, proved apart from the date arithmetic. */
  lemma FirstOfJuneLiterals()
    ensures DtStart + ":" + "20250601T000000Z" == "DTSTART:20250601T000000Z"
    ensures DtStart + ";VALUE=DATE:" + "20250601" == "DTSTART;VALUE=DATE:20250601"
    ensures "2025" + "06" + "01" + "T" + "00" + "00" + "00" + "Z" == "20250601T000000Z"
    ensures "2025" + "06" + "01" == "20250601"
  {
  }

  /** The DATE-TIME and DATE texts of 2025-06-01 00:00 UTC, from its date and clock. */
  lemma FirstOfJuneText(t: Timestamp)
    requires t == Timestamp(1748736000, 0)
    ensures FormatDateTime(t) == "20250601T000000Z" && FormatDate(t) == "20250601"
  {
    ClockOfMidnight(1748736000, 20240, Civil.Date(2025, 6, 1));
    Year2025();
    TwoDigitTexts();
    FirstOfJuneLiterals();
    ClockText(t, Civil.Date(2025, 6, 1), 0, 0, 0, "2025", "06", "01", "00", "00", "00");
  }

  /** 2025-06-02 00:00 UTC as the end: its DATE-TIME and DATE lines. */
  lemma SecondOfJune(t: Timestamp)
    requires t == Timestamp(1748822400, 0)
    ensures DateTimeLine(DtEnd, t) == "DTEND:20250602T000000Z"
    ensures DateLine(DtEnd, t) == "DTEND;VALUE=DATE:20250602"
  {
    SecondOfJuneText(t);
    LinesOfText(DtEnd, t, "20250602T000000Z", "20250602");
    SecondOfJuneLiterals();
  }

  /** The literal joins behind `SecondOfJune`. */
  lemma SecondOfJuneLiterals()
    ensures DtEnd + ":" + "20250602T000000Z" == "DTEND:20250602T000000Z"
    ensures DtEnd + ";VALUE=DATE:" + "20250602" == "DTEND;VALUE=DATE:20250602"
    ensures "2025" + "06" + "02" + "T" + "00" + "00" + "00" + "Z" == "20250602T000000Z"
    ensures "2025" + "06" + "02" == "20250602"
  {
  }

  /** The DATE-TIME and DATE texts of 2025-06-02 00:00 UTC. */
  lemma SecondOfJuneText(t: Timestamp)
    requires t == Timestamp(1748822400, 0)
    ensures FormatDateTime(t) == "20250602T000000Z" && FormatDate(t) == "20250602"
  {
    ClockOfMidnight(1748822400, 20241, Civil.Date(2025, 6, 2));
    Year2025();
    TwoDigitTexts();
    SecondOfJuneLiterals();
    ClockText(t, Civil.Date(2025, 6, 2), 0, 0, 0, "2025", "06", "02", "00", "00", "00");
  }

  /** The UTC midnight starting day `z`, whose date is known. */
  lemma ClockOfMidnight(utc: int, z: int, d: Civil.Date)
    requires utc == z * SecondsPerDay && Civil.ValidDate(d) && Civil.DaysFromCivil(d) == z
    ensures var t := Timestamp(utc, 0);
      Date(t) == d && Hour(t) == 0 && Minute(t) == 0 && Second(t) == 0
  {
    var t := Timestamp(utc, 0);
    WholeDays(z);
    assert LocalDay(t) == z && SecondOfDay(t) == 0;
    DateOfDay(z, d);
  }

  /** The two lines of a property whose DATE-TIME and DATE texts are known. */
  lemma LinesOfText(name: string, t: Timestamp, dt: string, d: string)
    requires FormatDateTime(t) == dt && FormatDate(t) == d
    ensures DateTimeLine(name, t) == name + ":" + dt
    ensures DateLine(name, t) == name + ";VALUE=DATE:" + d
  {
  }

  /** The DATE-TIME and DATE texts of a time, given its date, its clock and their digits. */
  lemma ClockText(t: Timestamp, d: Civil.Date, h: int, mi: int, s: int,
                  ys: string, mos: string, ds: string, hs: string, mis: string, ss: string)
    requires Date(t) == d && Hour(t) == h && Minute(t) == mi && Second(t) == s
    requires FormatYear(d.year) == ys && Fixed2(d.month) == mos && Fixed2(d.day) == ds
    requires Fixed2(h) == hs && Fixed2(mi) == mis && Fixed2(s) == ss
    ensures FormatDateTime(t) == ys + mos + ds + "T" + hs + mis + ss + "Z"
    ensures FormatDate(t) == ys + mos + ds
  {
  }

  /** The two-digit texts of the months, days and hours of the examples. */
  lemma TwoDigitTexts()
    ensures Fixed2(0) == "00" && Fixed2(1) == "01" && Fixed2(2) == "02" && Fixed2(5) == "05"
    ensures Fixed2(6) == "06" && Fixed2(21) == "21" && Fixed2(31) == "31"
  {
    assert DigitChar(0) == '0' && DigitChar(1) == '1' && DigitChar(2) == '2' && DigitChar(3) == '3';
    assert DigitChar(5) == '5' && DigitChar(6) == '6';
  }

  /** 2025-05-31 21:00 UTC, the shifted start of the +3h example: its DATE-TIME and DATE lines. */
  lemma EveningOfMay31(t: Timestamp)
    requires t == Timestamp(1748725200, 0)
    ensures DateTimeLine(DtStart, t) == "DTSTART:20250531T210000Z"
    ensures DateLine(DtStart, t) == "DTSTART;VALUE=DATE:20250531"
  {
    EveningOfMay31Text(t);
    LinesOfText(DtStart, t, "20250531T210000Z", "20250531");
    EveningOfMay31Literals();
  }

  /** The literal joins behind `EveningOfMay31`. */
  lemma EveningOfMay31Literals()
    ensures DtStart + ":" + "20250531T210000Z" == "DTSTART:20250531T210000Z"
    ensures DtStart + ";VALUE=DATE:" + "20250531" == "DTSTART;VALUE=DATE:20250531"
    ensures "2025" + "05" + "31" + "T" + "21" + "00" + "00" + "Z" == "20250531T210000Z"
    ensures "2025" + "05" + "31" == "20250531"
  {
  }

  /** The DATE-TIME and DATE texts of 2025-05-31 21:00 UTC. */
  lemma EveningOfMay31Text(t: Timestamp)
    requires t == Timestamp(1748725200, 0)
    ensures FormatDateTime(t) == "20250531T210000Z" && FormatDate(t) == "20250531"
  {
    ClockOfMay31Evening();
    Year2025();
    TwoDigitTexts();
    EveningOfMay31Literals();
    ClockText(t, Civil.Date(2025, 5, 31), 21, 0, 0, "2025", "05", "31", "21", "00", "00");
  }

  /** 1748725200 seconds is 2025-05-31 at 21:00:00 UTC. */
  lemma ClockOfMay31Evening()
    ensures var t := Timestamp(1748725200, 0);
      Date(t) == Civil.Date(2025, 5, 31) && Hour(t) == 21 && Minute(t) == 0 && Second(t) == 0
  {
    var t := Timestamp(1748725200, 0);
    assert LocalDay(t) == 20239 && SecondOfDay(t) == 75600;
    DateOfDay(20239, Civil.Date(2025, 5, 31));
  }

  /** The year 2025 in the `2006` layout. */
  lemma Year2025()
    ensures FormatYear(2025) == "2025"
  {
    assert DigitChar(2) == '2' && DigitChar(0) == '0' && DigitChar(5) == '5';
    assert Fixed4(2025) == [DigitChar(2), DigitChar(0), DigitChar(2), DigitChar(5)];
  }

  /** An unknown zone name changes nothing but the display name. */
  lemma UnknownZoneFallsBack(event: OpenAI.Event, timezone: string, zones: ZoneDb, serialize: Serializer)
    requires zones(timezone).None?
    ensures var p := PlanIcs(event, timezone, zones);
      && p == IcsPlan(FallbackTimezone, 0, event.start, event.end)
      && (serialize(event, p).Some? ==> GenerateIcs(event, timezone, zones, serialize).Ok?)
  {
  }
}
