/**
 * The bot's time-zone handling: reading a `/timezone` argument (an IANA
 * name, "GMT"/"UTC", or a GMT/UTC offset), showing a zone to the user, the
 * per-user preference map with its "UTC" default, the rule that refuses
 * event requests from users without a zone, the all-day test and the image
 * MIME whitelist.
 *
 * `time.LoadLocation` is the zone oracle; Telegram itself is not modelled.
 */
module Telegram {
  import opened Wrappers
  import opened Text
  import opened Time
  import OpenAI
  import Calendar

  const DefaultTimezone := "UTC"
  const EtcPrefix := "Etc/GMT"
  const MaxOffsetHours := 14

  // ---------------------------------------------------------------------------
  // The offset grammar `^(?i)(GMT|UTC)\s*([+-])\s*(\d+)(?::(\d+))?$`
  // ---------------------------------------------------------------------------

  /** The regular-expression class `\s`: tab, newline, form feed, carriage return and space. */
  predicate IsRegexSpace(c: char) {
    c == '\t' || c == '\n' || c == '\U{C}' || c == '\r' || c == ' '
  }

  predicate AllRegexSpaces(s: string) {
    forall i :: 0 <= i < |s| ==> IsRegexSpace(s[i])
  }

  /** Length of the longest prefix of `\s` characters: what a greedy `\s*` consumes. */
  function SpanRegexSpaces(s: string): (n: nat)
    ensures n <= |s| && AllRegexSpaces(s[..n])
    ensures n == |s| || !IsRegexSpace(s[n])
  {
    if s != [] && IsRegexSpace(s[0]) then
      var n := 1 + SpanRegexSpaces(s[1..]);
      assert s[..n] == [s[0]] + s[1..][..n - 1];
      n
    else 0
  }

  /** Length of the longest prefix of ASCII digits: what a greedy `\d+` consumes. */
  function SpanDigits(s: string): (n: nat)
    ensures n <= |s| && AllDigits(s[..n])
    ensures n == |s| || !IsDigit(s[n])
  {
    if s != [] && IsDigit(s[0]) then
      var n := 1 + SpanDigits(s[1..]);
      assert s[..n] == [s[0]] + s[1..][..n - 1];
      n
    else 0
  }

  /** A greedy span stops exactly at the end of a run followed by a character outside the class. */
  lemma SpanRegexSpacesOf(w: string, r: string)
    requires AllRegexSpaces(w)
    requires r == [] || !IsRegexSpace(r[0])
    ensures SpanRegexSpaces(w + r) == |w|
  {
    var s := w + r;
    var n := SpanRegexSpaces(s);
    assert forall i :: 0 <= i < |w| ==> s[i] == w[i];
    assert forall i :: 0 <= i < n ==> s[..n][i] == s[i];
    assert |r| > 0 ==> s[|w|] == r[0];
  }

  lemma SpanDigitsOf(w: string, r: string)
    requires AllDigits(w)
    requires r == [] || !IsDigit(r[0])
    ensures SpanDigits(w + r) == |w|
  {
    var s := w + r;
    var n := SpanDigits(s);
    assert forall i :: 0 <= i < |w| ==> s[i] == w[i];
    assert forall i :: 0 <= i < n ==> s[..n][i] == s[i];
    assert |r| > 0 ==> s[|w|] == r[0];
  }

  /** The pieces of a matched offset: the prefix, the white space around the sign, the sign and the digits. */
  datatype OffsetForm = OffsetForm(prefix: string, gap1: string, sign: char, gap2: string, hours: string, minutes: Option<string>)

  predicate IsZonePrefix(p: string) {
    EqualFoldAscii(p, "GMT") || EqualFoldAscii(p, "UTC")
  }

  /** The pieces the pattern admits. */
  predicate ValidForm(f: OffsetForm) {
    && IsZonePrefix(f.prefix)
    && AllRegexSpaces(f.gap1) && AllRegexSpaces(f.gap2)
    && (f.sign == '+' || f.sign == '-')
    && f.hours != [] && AllDigits(f.hours)
    && (f.minutes.Some? ==> f.minutes.value != [] && AllDigits(f.minutes.value))
  }

  function MinutesSuffix(minutes: Option<string>): string {
    match minutes
    case None => ""
    case Some(m) => ":" + m
  }

  /** The digits of the hours and the optional `:minutes`. */
  function RenderNumber(hours: string, minutes: Option<string>): string {
    hours + MinutesSuffix(minutes)
  }

  /** Everything after the prefix. */
  function RenderSigned(f: OffsetForm): string {
    f.gap1 + [f.sign] + f.gap2 + RenderNumber(f.hours, f.minutes)
  }

  /** The text the pieces spell. */
  function Render(f: OffsetForm): string {
    f.prefix + RenderSigned(f)
  }

  predicate ValidNumber(hours: string, minutes: Option<string>) {
    hours != [] && AllDigits(hours) && (minutes.Some? ==> minutes.value != [] && AllDigits(minutes.value))
  }

  /** `(\d+)(?::(\d+))?$`: the hours, then optionally a colon and the minutes, then the end. */
  function MatchNumber(t: string): (r: Option<(string, Option<string>)>)
    ensures r.Some? ==> ValidNumber(r.value.0, r.value.1) && RenderNumber(r.value.0, r.value.1) == t
  {
    var n := SpanDigits(t);
    if n == 0 then None
    else if n == |t| then
      assert t[..n] == t;
      Some((t, None))
    else if t[n] == ':' && n + 1 < |t| && AllDigits(t[n + 1..]) then
      assert t == t[..n] + ":" + t[n + 1..];
      Some((t[..n], Some(t[n + 1..])))
    else None
  }

  lemma MatchNumberComplete(hours: string, minutes: Option<string>)
    requires ValidNumber(hours, minutes)
    ensures MatchNumber(RenderNumber(hours, minutes)) == Some((hours, minutes))
  {
    var t := RenderNumber(hours, minutes);
    var tail := MinutesSuffix(minutes);
    SpanDigitsOf(hours, tail);
    assert t[..|hours|] == hours;
    if minutes.Some? {
      assert t[|hours| + 1..] == minutes.value;
    }
  }

  /** `\s*([+-])\s*` followed by the number; the prefix is left empty. */
  function MatchSigned(t: string): (r: Option<OffsetForm>)
    ensures r.Some? ==> r.value.prefix == "" && RenderSigned(r.value) == t
    ensures r.Some? ==>
      && AllRegexSpaces(r.value.gap1) && AllRegexSpaces(r.value.gap2)
      && (r.value.sign == '+' || r.value.sign == '-') && ValidNumber(r.value.hours, r.value.minutes)
  {
    var a := SpanRegexSpaces(t);
    if a == |t| || (t[a] != '+' && t[a] != '-') then None
    else
      var u := t[a + 1..];
      var b := SpanRegexSpaces(u);
      var number := MatchNumber(u[b..]);
      if number.None? then None
      else
        var f := OffsetForm("", t[..a], t[a], u[..b], number.value.0, number.value.1);
        SignedPieces(t, a, b);
        Some(f)
  }

  /** Cutting at the sign and after the second gap loses nothing. */
  lemma SignedPieces(t: string, a: nat, b: nat)
    requires a < |t| && b <= |t| - a - 1
    ensures var u := t[a + 1..]; t == t[..a] + [t[a]] + u[..b] + u[b..]
  {
    var u := t[a + 1..];
    assert u == u[..b] + u[b..];
    assert t == t[..a] + [t[a]] + u;
  }

  lemma MatchSignedComplete(f: OffsetForm)
    requires ValidForm(f)
    ensures MatchSigned(RenderSigned(f)) == Some(f.(prefix := ""))
  {
    var t := RenderSigned(f);
    MatchSignedSteps(f);
    MatchNumberComplete(f.hours, f.minutes);
    var u := t[|f.gap1| + 1..];
    assert MatchNumber(u[SpanRegexSpaces(u)..]) == Some((f.hours, f.minutes));
  }

  /** Where the greedy spans stop in a rendered form. */
  lemma MatchSignedSteps(f: OffsetForm)
    requires ValidForm(f)
    ensures var t := RenderSigned(f);
      && SpanRegexSpaces(t) == |f.gap1| < |t| && t[|f.gap1|] == f.sign && t[..|f.gap1|] == f.gap1
      && var u := t[|f.gap1| + 1..];
      && SpanRegexSpaces(u) == |f.gap2| && u[..|f.gap2|] == f.gap2
      && u[|f.gap2|..] == RenderNumber(f.hours, f.minutes)
  {
    var number := RenderNumber(f.hours, f.minutes);
    assert RenderSigned(f) == f.gap1 + [f.sign] + (f.gap2 + number);
    GapBeforeSign(f.gap1, f.sign, f.gap2 + number);
    assert number[0] == f.hours[0] && IsDigit(f.hours[0]);
    GapBeforeNumber(f.gap2, number);
  }

  /** `\s*` before the sign stops at the sign. */
  lemma GapBeforeSign(gap: string, sign: char, rest: string)
    requires AllRegexSpaces(gap) && (sign == '+' || sign == '-')
    ensures var t := gap + [sign] + rest;
      && SpanRegexSpaces(t) == |gap| < |t| && t[|gap|] == sign && t[..|gap|] == gap
      && t[|gap| + 1..] == rest
  {
    var t := gap + [sign] + rest;
    assert t == gap + ([sign] + rest);
    SpanRegexSpacesOf(gap, [sign] + rest);
    assert t[..|gap|] == gap;
    assert t[|gap| + 1..] == rest;
  }

  /** `\s*` after the sign stops at the first digit. */
  lemma GapBeforeNumber(gap: string, number: string)
    requires AllRegexSpaces(gap) && number != [] && IsDigit(number[0])
    ensures var u := gap + number;
      && SpanRegexSpaces(u) == |gap| && u[..|gap|] == gap && u[|gap|..] == number
  {
    SpanRegexSpacesOf(gap, number);
    var u := gap + number;
    assert u[..|gap|] == gap;
    assert u[|gap|..] == number;
  }

  /** The pattern's match, read left to right with greedy spans; `None` when the text does not match. */
  function MatchOffset(s: string): (r: Option<OffsetForm>)
    ensures r.Some? ==> ValidForm(r.value) && Render(r.value) == s
  {
    if |s| < 3 || !IsZonePrefix(s[..3]) then None
    else
      match MatchSigned(s[3..])
      case None => None
      case Some(f) =>
        assert s == s[..3] + s[3..];
        Some(f.(prefix := s[..3]))
  }

  /** Every text the pattern admits is matched, and into the pieces it was built from. */
  lemma MatchOffsetComplete(f: OffsetForm)
    requires ValidForm(f)
    ensures MatchOffset(Render(f)) == Some(f)
  {
    var s := Render(f);
    assert s[..3] == f.prefix && s[3..] == RenderSigned(f);
    MatchSignedComplete(f);
  }

  // ---------------------------------------------------------------------------
  // parseTimezone
  // ---------------------------------------------------------------------------

  datatype TzError = HoursOutOfRange | MinutesOutOfRange | UnknownFormat

  function InvertSign(sign: char): char {
    if sign == '+' then '-' else '+'
  }

  /** The `Etc/GMT` name for an offset: the tz database writes the opposite sign. */
  function EtcName(sign: char, hours: nat): (name: string)
    ensures |name| > 8 && name[..7] == EtcPrefix && name[8..] == NatToString(hours)
    ensures name[7] == (if sign == '+' then '-' else '+')
  {
    EtcPrefix + [InvertSign(sign)] + NatToString(hours)
  }

  /**
   * `parseTimezone`: a name the zone database accepts is kept exactly as
   * typed; otherwise the trimmed text "GMT"/"UTC" in any case means "UTC";
   * otherwise a GMT/UTC offset becomes an `Etc/GMT` name with the sign
   * inverted and half hours and more rounded up; anything else is an error.
   */
  function ParseTimezone(input: string, zones: ZoneDb): (r: Result<string, TzError>)
    ensures zones(input).Some? ==> r == Ok(input)
    ensures r.Err? ==> zones(input).None? && (MatchOffset(TrimSpace(input)).None? <==> r.error == UnknownFormat)
    ensures r.Ok? && zones(input).None? ==>
      r.value == DefaultTimezone || (|r.value| > 8 && r.value[..7] == EtcPrefix && AllDigits(r.value[8..]))
    ensures zones(input).None? && (EqualFoldAscii(TrimSpace(input), "GMT") || EqualFoldAscii(TrimSpace(input), "UTC"))
      ==> r == Ok(DefaultTimezone)
    ensures (zones(input).None? && !EqualFoldAscii(TrimSpace(input), "GMT") && !EqualFoldAscii(TrimSpace(input), "UTC")
             && MatchOffset(TrimSpace(input)).None?) ==> r == Err(UnknownFormat)
    ensures zones(input).None? && MatchOffset(TrimSpace(input)).Some? ==> r == OffsetName(MatchOffset(TrimSpace(input)).value)
  {
    if zones(input).Some? then Ok(input)
    else
      var s := TrimSpace(input);
      if EqualFoldAscii(s, "GMT") || EqualFoldAscii(s, "UTC") then Ok(DefaultTimezone)
      else
        match MatchOffset(s)
        case None => Err(UnknownFormat)
        case Some(f) => OffsetName(f)
  }

  /**
   * The name for a matched offset: more than 14 hours is refused before
   * rounding, 60 minutes or more is refused, 30 minutes or more rounds the
   * hours up, and the sign is inverted.
   */
  function OffsetName(f: OffsetForm): (r: Result<string, TzError>)
    requires ValidForm(f)
    ensures r.Err? ==> r.error != UnknownFormat
    ensures r.Ok? ==> |r.value| > 8 && r.value[..7] == EtcPrefix && AllDigits(r.value[8..])
    ensures var h := ParseNat(f.hours);
      && (h > MaxOffsetHours ==> r == Err(HoursOutOfRange))
      && (h <= MaxOffsetHours && f.minutes.None? ==> r == Ok(EtcName(f.sign, h)))
      && (h <= MaxOffsetHours && f.minutes.Some? ==>
            var m := ParseNat(f.minutes.value);
            && (m >= 60 ==> r == Err(MinutesOutOfRange))
            && (30 <= m < 60 ==> r == Ok(EtcName(f.sign, h + 1)))
            && (m < 30 ==> r == Ok(EtcName(f.sign, h))))
  {
    var hours := ParseNat(f.hours);
    if hours > MaxOffsetHours then Err(HoursOutOfRange)
    else
      match f.minutes
      case None => Ok(EtcName(f.sign, hours))
      case Some(m) =>
        var minutes := ParseNat(m);
        if minutes >= 60 then Err(MinutesOutOfRange)
        else if minutes >= 30 then Ok(EtcName(f.sign, hours + 1))
        else Ok(EtcName(f.sign, hours))
  }

  /** Any text the pattern admits (after trimming) and the zone database rejects follows the offset rule. */
  lemma ParseTimezoneOffset(input: string, zones: ZoneDb, f: OffsetForm)
    requires zones(input).None? && ValidForm(f) && TrimSpace(input) == Render(f)
    ensures ParseTimezone(input, zones) == OffsetName(f)
  {
    var s := TrimSpace(input);
    assert !EqualFoldAscii(s, "GMT") && !EqualFoldAscii(s, "UTC") by {
      assert |Render(f)| >= 5;
    }
    MatchOffsetComplete(f);
  }

  /** "GMT+14:30" rounds up past the 14-hour limit to "Etc/GMT-15". */
  lemma RoundsPastLimit(zones: ZoneDb)
    requires zones("GMT+14:30").None?
    ensures ParseTimezone("GMT+14:30", zones) == Ok("Etc/GMT-15")
  {
    var f := OffsetForm("GMT", "", '+', "", "14", Some("30"));
    assert Render(f) == "GMT+14:30";
    TrimSpaceNoEdges("GMT+14:30");
    ParseTimezoneOffset("GMT+14:30", zones, f);
    OffsetNameExamples();
  }

  /** "UTC-5:30" rounds to six hours west, written "Etc/GMT+6". */
  lemma HalfHourWest(zones: ZoneDb)
    requires zones("UTC-5:30").None?
    ensures ParseTimezone("UTC-5:30", zones) == Ok("Etc/GMT+6")
  {
    var f := OffsetForm("UTC", "", '-', "", "5", Some("30"));
    assert Render(f) == "UTC-5:30";
    TrimSpaceNoEdges("UTC-5:30");
    ParseTimezoneOffset("UTC-5:30", zones, f);
    OffsetNameExamples();
  }

  /** "GMT+15" is refused. */
  lemma FifteenHoursRefused(zones: ZoneDb)
    requires zones("GMT+15").None?
    ensures ParseTimezone("GMT+15", zones) == Err(HoursOutOfRange)
  {
    var f := OffsetForm("GMT", "", '+', "", "15", None);
    assert Render(f) == "GMT+15";
    TrimSpaceNoEdges("GMT+15");
    ParseTimezoneOffset("GMT+15", zones, f);
    OffsetNameExamples();
  }

  lemma OffsetNameExamples()
    ensures OffsetName(OffsetForm("GMT", "", '+', "", "14", Some("30"))) == Ok("Etc/GMT-15")
    ensures OffsetName(OffsetForm("UTC", "", '-', "", "5", Some("30"))) == Ok("Etc/GMT+6")
    ensures OffsetName(OffsetForm("GMT", "", '+', "", "15", None)) == Err(HoursOutOfRange)
  {
    DecimalText(14, '1', '4');
    DecimalText(30, '3', '0');
    DecimalText(15, '1', '5');
    SingleDigitText(5, '5');
    SingleDigitText(6, '6');
    assert EtcName('+', 15) == EtcPrefix + "-" + "15" == "Etc/GMT-15";
    assert EtcName('-', 6) == EtcPrefix + "+" + "6" == "Etc/GMT+6";
    assert ParseNat("14") == 14 && ParseNat("30") == 30 && ParseNat("5") == 5;
  }

  lemma SingleDigitText(n: nat, c: char)
    requires n < 10 && c == DigitChar(n)
    ensures NatToString(n) == [c] && ParseNat([c]) == n
  {
    ParseNatToString(n);
  }

  /** The decimal text of a two-digit number, and reading it back. */
  lemma DecimalText(n: nat, tens: char, ones: char)
    requires 10 <= n < 100 && tens == DigitChar(n / 10) && ones == DigitChar(n % 10)
    ensures NatToString(n) == [tens, ones] && ParseNat([tens, ones]) == n
  {
    assert NatToString(n) == NatToString(n / 10) + [ones];
    ParseNatToString(n);
  }

  // ---------------------------------------------------------------------------
  // formatTimezoneForDisplay
  // ---------------------------------------------------------------------------

  /**
   * `formatTimezoneForDisplay`: an `Etc/GMT` name is shown as a GMT offset
   * with the sign turned back ("Etc/GMT" alone is "GMT+0"); every other name
   * is shown as it is.
   */
  function FormatTimezoneForDisplay(tz: string): (shown: string)
    ensures !(|tz| >= 7 && tz[..7] == EtcPrefix) ==> shown == tz
    ensures tz == EtcPrefix ==> shown == "GMT+0"
    ensures |tz| > 7 && tz[..7] == EtcPrefix ==>
      shown == "GMT" + (if tz[7] == '+' then "-" else if tz[7] == '-' then "+" else [tz[7]]) + tz[8..]
  {
    if |tz| >= 7 && tz[..7] == EtcPrefix then
      var offset := tz[7..];
      if offset == "" then "GMT+0"
      else if offset[0] == '+' then "GMT-" + offset[1..]
      else if offset[0] == '-' then "GMT+" + offset[1..]
      else "GMT" + offset
    else tz
  }

  /** Showing an `Etc/GMT±n` name turns its sign back. */
  lemma DisplayTurnsSignBack(sign: char, digits: string)
    requires sign == '+' || sign == '-'
    ensures FormatTimezoneForDisplay(EtcPrefix + [sign] + digits) == "GMT" + [InvertSign(sign)] + digits
  {
    var tz := EtcPrefix + [sign] + digits;
    assert tz[..7] == EtcPrefix && tz[7..] == [sign] + digits;
  }

  /**
   * A whole-hour offset typed as "GMT" followed by a sign and canonical
   * digits up to 14, which the zone database does not know, is shown back
   * exactly as typed.
   */
  lemma ParseThenDisplay(sign: char, h: nat, zones: ZoneDb)
    requires sign == '+' || sign == '-'
    requires h <= MaxOffsetHours
    requires zones("GMT" + [sign] + NatToString(h)).None?
    ensures var x := "GMT" + [sign] + NatToString(h);
      var r := ParseTimezone(x, zones);
      r.Ok? && FormatTimezoneForDisplay(r.value) == x
  {
    var digits := NatToString(h);
    ParseWholeHours(sign, h, zones);
    DisplayTurnsSignBack(InvertSign(sign), digits);
    assert EtcName(sign, h) == EtcPrefix + [InvertSign(sign)] + digits;
  }

  /** A whole-hour offset the zone database does not know becomes the `Etc/GMT` name with the sign inverted. */
  lemma ParseWholeHours(sign: char, h: nat, zones: ZoneDb)
    requires sign == '+' || sign == '-'
    requires h <= MaxOffsetHours
    requires zones("GMT" + [sign] + NatToString(h)).None?
    ensures ParseTimezone("GMT" + [sign] + NatToString(h), zones) == Ok(EtcName(sign, h))
  {
    var digits := NatToString(h);
    var x := "GMT" + [sign] + digits;
    var f := OffsetForm("GMT", "", sign, "", digits, None);
    assert Render(f) == x;
    TrimSpaceNoEdges(x);
    ParseNatToString(h);
    ParseTimezoneOffset(x, zones, f);
  }

  // ---------------------------------------------------------------------------
  // isImageMIME
  // ---------------------------------------------------------------------------

  const ImageMimeTypes: map<string, bool> := map[
    "image/jpeg" := true, "image/png" := true, "image/gif" := true,
    "image/webp" := true, "image/bmp" := true]

  /** `isImageMIME`: a lookup in the whitelist, with absent keys reading as false. */
  function IsImageMime(mime: string): (b: bool)
    ensures b <==> mime == "image/jpeg" || mime == "image/png" || mime == "image/gif"
                   || mime == "image/webp" || mime == "image/bmp"
  {
    mime in ImageMimeTypes && ImageMimeTypes[mime]
  }

  /** The match is exact: letter case and other image types are not admitted. */
  lemma IsImageMimeIsExact()
    ensures !IsImageMime("IMAGE/JPEG") && !IsImageMime("image/jpg") && !IsImageMime("image/svg+xml")
    ensures !IsImageMime("image/tiff") && !IsImageMime("")
  {
  }

  // ---------------------------------------------------------------------------
  // Preferences and the event gate
  // ---------------------------------------------------------------------------

  /** The zone a user is treated as having: the stored one, or "UTC" for a user not seen yet. */
  function StoredTimezone(timezones: map<string, string>, user: string): (tz: string)
    ensures user in timezones ==> tz == timezones[user]
    ensures user !in timezones ==> tz == DefaultTimezone
  {
    if user in timezones then timezones[user] else DefaultTimezone
  }

  /** Inserting the default for a new user changes no user's zone. */
  lemma DefaultInsertUnobservable(timezones: map<string, string>, user: string, other: string)
    requires user !in timezones
    ensures StoredTimezone(timezones[user := DefaultTimezone], other) == StoredTimezone(timezones, other)
  {
  }

  /** Setting a user's zone is seen by that user only. */
  lemma SetThenLookup(timezones: map<string, string>, user: string, tz: string, other: string)
    ensures StoredTimezone(timezones[user := tz], other) == if other == user then tz else StoredTimezone(timezones, other)
  {
  }

  /** The rule as written: a non-command message is refused while the stored zone is exactly "UTC". */
  predicate RefusesEventAsWritten(storedTz: string, isCommand: bool) {
    storedTz == DefaultTimezone && !isCommand
  }

  /**
   * "/timezone UTC" is accepted and stored as "UTC" (the zone database knows
   * "UTC"), after which every non-command message of that user is refused.
   */
  lemma UtcChoiceLocksOut(timezones: map<string, string>, user: string, zones: ZoneDb)
    requires zones("UTC").Some?
    ensures var r := ParseTimezone("UTC", zones);
      r == Ok("UTC") && RefusesEventAsWritten(StoredTimezone(timezones[user := r.value], user), false)
  {
  }

  /** The same happens for "gmt", which the zone database does not know and the parser maps to "UTC". */
  lemma GmtChoiceLocksOut(timezones: map<string, string>, user: string, zones: ZoneDb)
    requires zones("gmt").None?
    ensures var r := ParseTimezone("gmt", zones);
      r == Ok("UTC") && RefusesEventAsWritten(StoredTimezone(timezones[user := r.value], user), false)
  {
    TrimSpaceNoEdges("gmt");
    assert EqualFoldAscii("gmt", "GMT");
  }

  /** The intended rule: a non-command message is refused while the user has not chosen a zone. */
  predicate RefusesEvent(chosen: set<string>, user: string, isCommand: bool) {
    user !in chosen && !isCommand
  }

  /** Every user who has not chosen a zone is stored as "UTC" or not stored at all. */
  predicate ChoicesConsistent(timezones: map<string, string>, chosen: set<string>) {
    (forall u :: u in chosen ==> u in timezones)
    && (forall u :: u in timezones && u !in chosen ==> timezones[u] == DefaultTimezone)
  }

  /**
   * The intended rule refuses only where the written one does, and the two
   * differ only for a user who chose a zone that is stored as "UTC".
   */
  lemma GateAgreement(timezones: map<string, string>, chosen: set<string>, user: string, isCommand: bool)
    requires ChoicesConsistent(timezones, chosen)
    ensures RefusesEvent(chosen, user, isCommand) ==> RefusesEventAsWritten(StoredTimezone(timezones, user), isCommand)
    ensures RefusesEventAsWritten(StoredTimezone(timezones, user), isCommand) && !RefusesEvent(chosen, user, isCommand)
      ==> user in chosen && timezones[user] == DefaultTimezone
  {
  }

  /** The preference store of the bot. */
  class Preferences {
    var timezones: map<string, string>
    /** The users who set a zone with `/timezone`. */
    var chosen: set<string>

    ghost predicate Valid()
      reads this
    {
      ChoicesConsistent(timezones, chosen)
    }

    constructor ()
      ensures Valid() && timezones == map[] && chosen == {}
    {
      timezones := map[];
      chosen := {};
    }

    /** `getUserPreferences`: the user's zone, storing "UTC" for a user seen for the first time. */
    method GetUserPreferences(user: string) returns (tz: string)
      requires Valid()
      modifies this`timezones
      ensures Valid()
      ensures tz == StoredTimezone(old(timezones), user)
      ensures timezones == if user in old(timezones) then old(timezones) else old(timezones)[user := DefaultTimezone]
    {
      if user !in timezones {
        timezones := timezones[user := DefaultTimezone];
      }
      tz := timezones[user];
    }

    /** `setUserTimezone`: sets this user's zone and no one else's, and records that the user chose one. */
    method SetUserTimezone(user: string, tz: string)
      requires Valid()
      modifies this
      ensures Valid()
      ensures timezones == old(timezones)[user := tz]
      ensures chosen == old(chosen) + {user}
    {
      var _ := GetUserPreferences(user);
      timezones := timezones[user := tz];
      chosen := chosen + {user};
    }

    /** The intended gate: whatever zone a user chose, "UTC" included, that user is no longer refused. */
    method AcceptsAfterChoice(user: string, tz: string) returns (refused: bool)
      requires Valid()
      modifies this
      ensures Valid() && timezones == old(timezones)[user := tz]
      ensures !refused && refused == RefusesEvent(chosen, user, false)
    {
      SetUserTimezone(user, tz);
      refused := RefusesEvent(chosen, user, false);
    }
  }

  // ---------------------------------------------------------------------------
  // All-day events
  // ---------------------------------------------------------------------------

  /** The bot labels an event "All-day" when its start reads 00:00:00 in its own location. */
  predicate IsAllDay(event: OpenAI.Event) {
    IsMidnight(event.start)
  }

  /** The label agrees with the encoder: an event not labelled all-day is never rewritten to DATE form. */
  lemma AllDayLabelMatchesEncoder(event: OpenAI.Event, doc: string, p: Calendar.IcsPlan)
    ensures !IsAllDay(event) ==> Calendar.RewriteAllDay(doc, event, p) == doc
  {
  }
}
