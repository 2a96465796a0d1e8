/**
 * Timestamp parsing: `datetime.strptime` for the three fixed formats the
 * organizer uses, and `extract_date`, which turns the missing value, the
 * all-zero sentinel and every parse failure into "no date".
 *
 * A format is a sequence of directives. Each field directive is matched the way
 * CPython's strptime regular expression matches it: %Y exactly four digits,
 * %m %d %H %M %S one or two digits in their ranges (%S up to 61, %d also a space
 * and one digit), %f one to six digits; whitespace in the format matches one or
 * more whitespace characters; any other format character matches itself with
 * letter case ignored; input left over after the last directive is an error.
 * In the three formats every field is followed by a non-digit or by the end,
 * so the characters a field takes are exactly the run of digits at that point,
 * which is how the regex's backtracking ends as well.
 */
module Strptime {

  import opened Wrappers
  import opened Decimal
  import opened Ascii

  datatype Directive =
    | Year      // %Y
    | Month     // %m
    | Day       // %d
    | Hour      // %H
    | Minute    // %M
    | Second    // %S
    | Fraction  // %f
    | Space     // whitespace in the format
    | Literal(c: char)

  predicate IsField(d: Directive) {
    !d.Space? && !d.Literal?
  }

  /** EXIF DateTimeOriginal and the creation-time fallback: "%Y:%m:%d %H:%M:%S". */
  const PhotoFormat: seq<Directive> :=
    [Year, Literal(':'), Month, Literal(':'), Day, Space, Hour, Literal(':'), Minute, Literal(':'), Second]

  /** The part the two video formats share: "%Y-%m-%dT%H:%M:%S". */
  const VideoStem: seq<Directive> :=
    [Year, Literal('-'), Month, Literal('-'), Day, Literal('T'), Hour, Literal(':'), Minute, Literal(':'), Second]

  /** "%Y-%m-%dT%H:%M:%S.%fZ", tried first for videos. */
  const VideoFractionFormat: seq<Directive> := VideoStem + [Literal('.'), Fraction, Literal('Z')]

  /** "%Y-%m-%dT%H:%M:%SZ", tried when the fractional format gives no date. */
  const VideoFormat: seq<Directive> := VideoStem + [Literal('Z')]

  datatype DateTime = DateTime(year: int, month: int, day: int, hour: int, minute: int, second: int, microsecond: int)

  predicate IsLeapYear(y: int) {
    y % 4 == 0 && (y % 100 != 0 || y % 400 == 0)
  }

  function DaysInMonth(y: int, m: int): int
    requires 1 <= m <= 12
  {
    if m == 2 then (if IsLeapYear(y) then 29 else 28)
    else if m == 4 || m == 6 || m == 9 || m == 11 then 30
    else 31
  }

  /** The ranges the datetime constructor checks. */
  predicate ValidDateTime(d: DateTime) {
    && 1 <= d.year <= 9999
    && 1 <= d.month <= 12
    && 1 <= d.day <= DaysInMonth(d.year, d.month)
    && 0 <= d.hour < 24
    && 0 <= d.minute < 60
    && 0 <= d.second < 60
    && 0 <= d.microsecond < 1000000
  }

  /** The values strptime starts from before any field is read. */
  const Defaults: DateTime := DateTime(1900, 1, 1, 0, 0, 0, 0)

  function Get(t: DateTime, d: Directive): int {
    match d
    case Year => t.year
    case Month => t.month
    case Day => t.day
    case Hour => t.hour
    case Minute => t.minute
    case Second => t.second
    case Fraction => t.microsecond
    case _ => 0
  }

  function Store(t: DateTime, d: Directive, v: int): DateTime {
    match d
    case Year => t.(year := v)
    case Month => t.(month := v)
    case Day => t.(day := v)
    case Hour => t.(hour := v)
    case Minute => t.(minute := v)
    case Second => t.(second := v)
    case Fraction => t.(microsecond := v)
    case _ => t
  }

  /** `str.isspace`, the characters `\s` matches. */
  predicate IsSpace(c: char) {
    || '\t' <= c <= '\r'
    || '\U{1c}' <= c <= ' '
    || c == '\U{85}' || c == '\U{a0}' || c == '\U{1680}'
    || '\U{2000}' <= c <= '\U{200a}'
    || c == '\U{2028}' || c == '\U{2029}' || c == '\U{202f}' || c == '\U{205f}' || c == '\U{3000}'
  }

  /** The length of the run of digits that starts s. */
  function DigitRun(s: string): (n: nat)
    ensures n <= |s| && AllDigits(s[..n])
    ensures n < |s| ==> !IsDigit(s[n])
  {
    if s == [] || !IsDigit(s[0]) then 0
    else
      var n := 1 + DigitRun(s[1..]);
      assert s[..n] == [s[0]] + s[1..][..n - 1];
      n
  }

  /** The length of the run of whitespace that starts s. */
  function SpaceRun(s: string): (n: nat)
    ensures n <= |s|
    ensures forall i :: 0 <= i < n ==> IsSpace(s[i])
    ensures n < |s| ==> !IsSpace(s[n])
  {
    if s == [] || !IsSpace(s[0]) then 0
    else 1 + SpaceRun(s[1..])
  }

  /** The characters a field directive takes at the head of s. */
  function TokenLength(d: Directive, s: string): (n: nat)
    ensures n <= |s|
  {
    if d == Day && s != [] && s[0] == ' ' then 1 + DigitRun(s[1..]) else DigitRun(s)
  }

  predicate InRange(tok: string, lo: int, hi: int) {
    1 <= |tok| <= 2 && AllDigits(tok) && lo <= Value(tok) <= hi
  }

  /** Whether the field's regular expression matches all of tok. */
  predicate Accepts(d: Directive, tok: string) {
    match d
    case Year => |tok| == 4 && AllDigits(tok)
    case Month => InRange(tok, 1, 12)
    case Day => InRange(tok, 1, 31) || (|tok| == 2 && tok[0] == ' ' && '1' <= tok[1] <= '9')
    case Hour => InRange(tok, 0, 23)
    case Minute => InRange(tok, 0, 59)
    case Second => InRange(tok, 0, 61)
    case Fraction => 1 <= |tok| <= 6 && AllDigits(tok)
    case _ => false
  }

  /** The number a matched field stands for; %f is padded with zeros on the right to microseconds. */
  function FieldValue(d: Directive, tok: string): int
    requires Accepts(d, tok)
  {
    if d == Fraction then Value(tok) * Pow10(6 - |tok|)
    else if d == Day && tok[0] == ' ' then DigitValue(tok[1])
    else Value(tok)
  }

  /** Matches one directive at the head of s: the updated values and what is left of s. */
  function Step(s: string, d: Directive, acc: DateTime): (r: Option<(DateTime, string)>)
    ensures r.Some? ==> |r.value.1| < |s|
  {
    match d
    case Space =>
      var n := SpaceRun(s);
      if n == 0 then None else Some((acc, s[n..]))
    case Literal(c) =>
      if s != [] && LowerChar(s[0]) == LowerChar(c) then Some((acc, s[1..])) else None
    case _ =>
      var tok := s[..TokenLength(d, s)];
      if Accepts(d, tok) then Some((Store(acc, d, FieldValue(d, tok)), s[|tok|..])) else None
  }

  /** Matches the directives one after the other. */
  function Scan(s: string, fmt: seq<Directive>, acc: DateTime): (r: Option<(DateTime, string)>)
    ensures r.Some? ==> |r.value.1| + |fmt| <= |s|
    decreases fmt
  {
    if fmt == [] then Some((acc, s))
    else
      match Step(s, fmt[0], acc)
      case None => None
      case Some((next, rest)) => Scan(rest, fmt[1..], next)
  }

  /** `datetime.strptime(s, fmt)`, with None for every ValueError it raises. */
  function Parse(s: string, fmt: seq<Directive>): (r: Option<DateTime>)
    ensures r.Some? ==> ValidDateTime(r.value)
  {
    match Scan(s, fmt, Defaults)
    case None => None
    case Some((t, rest)) =>
      if rest != [] then None          // unconverted data remains
      else if ValidDateTime(t) then Some(t)
      else None                        // out of range for the datetime constructor
  }

  const Sentinel: string := "0000:00:00 00:00:00"

  /** `extract_date`: no date for a missing string or the sentinel, and no date when parsing fails. */
  function ExtractDate(dateStr: Option<string>, fmt: seq<Directive>): (r: Option<DateTime>)
    ensures dateStr.None? || dateStr == Some(Sentinel) ==> r.None?
    ensures r.Some? ==> dateStr.Some? && r == Parse(dateStr.value, fmt)
  {
    if dateStr.Some? && dateStr.value != Sentinel then Parse(dateStr.value, fmt) else None
  }

  /** The date of a video: the fractional-seconds format, and only when that fails the plain one. */
  function VideoDate(dateStr: Option<string>): (r: Option<DateTime>)
    ensures r.Some? ==> dateStr.Some? && dateStr != Some(Sentinel) && ValidDateTime(r.value)
  {
    var first := ExtractDate(dateStr, VideoFractionFormat);
    if first.Some? then first else ExtractDate(dateStr, VideoFormat)
  }

  // ---------------------------------------------------------------------------
  // Matching a format in two parts

  /** Matching p + q is matching p and then matching q on what p left over. */
  lemma {:induction false} ScanAppend(s: string, p: seq<Directive>, q: seq<Directive>, acc: DateTime)
    ensures Scan(s, p + q, acc) ==
      match Scan(s, p, acc)
      case None => None
      case Some((t, rest)) => Scan(rest, q, t)
  {
    if p == [] {
      assert p + q == q;
    } else {
      assert (p + q)[0] == p[0];
      assert (p + q)[1..] == p[1..] + q;
      match Step(s, p[0], acc)
      case None =>
      case Some((next, rest)) => ScanAppend(rest, p[1..], q, next);
    }
  }

  /** No string is a date in both video formats: after the seconds one needs '.', the other 'Z'. */
  lemma VideoFormatsExclusive(s: string)
    ensures Parse(s, VideoFractionFormat).None? || Parse(s, VideoFormat).None?
  {
    ScanAppend(s, VideoStem, [Literal('.'), Fraction, Literal('Z')], Defaults);
    ScanAppend(s, VideoStem, [Literal('Z')], Defaults);
    match Scan(s, VideoStem, Defaults)
    case None =>
    case Some((t, rest)) =>
      assert rest == [] || LowerChar(rest[0]) != LowerChar('.') || LowerChar(rest[0]) != LowerChar('Z');
  }

  /** So the order in which a video's two formats are tried does not change its date. */
  lemma VideoFormatOrderIrrelevant(dateStr: Option<string>)
    ensures VideoDate(dateStr) ==
      var plain := ExtractDate(dateStr, VideoFormat);
      if plain.Some? then plain else ExtractDate(dateStr, VideoFractionFormat)
  {
    if dateStr.Some? {
      VideoFormatsExclusive(dateStr.value);
    }
  }

  // ---------------------------------------------------------------------------
  // The sentinel

  /** A run of digits ended by a given non-digit. */
  lemma DigitRunAt(s: string, n: nat)
    requires n < |s| && AllDigits(s[..n]) && !IsDigit(s[n])
    ensures DigitRun(s) == n
  {
    if n > 0 {
      assert s[1..][..n - 1] == s[1..n];
      assert s[1..][n - 1] == s[n];
      DigitRunAt(s[1..], n - 1);
    }
  }

  lemma {:induction false} ValueOfZeros(s: string)
    requires forall i :: 0 <= i < |s| ==> s[i] == '0'
    ensures AllDigits(s) && Value(s) == 0
  {
    if s != [] {
      ValueOfZeros(s[..|s| - 1]);
    }
  }

  /** The sentinel's first four characters are a year, 0, which the datetime constructor would refuse. */
  lemma ZeroYear(s: string, acc: DateTime)
    requires |s| >= 5 && s[0] == s[1] == s[2] == s[3] == '0' && s[4] == ':'
    ensures Step(s, Year, acc) == Some((acc.(year := 0), s[4..]))
  {
    DigitRunAt(s, 4);
    ValueOfZeros(s[..4]);
  }

  /** A month written "00" is refused. */
  lemma ZeroMonthRefused(m: string, acc: DateTime)
    requires |m| >= 3 && m[0] == '0' && m[1] == '0' && m[2] == ':'
    ensures Step(m, Month, acc).None?
  {
    DigitRunAt(m, 2);
    ValueOfZeros(m[..2]);
  }

  /**
   * A format that starts with the year and a literal stops at once when what
   * follows the year is another character.
   */
  lemma StopsAfterYear(s: string, fmt: seq<Directive>, acc: DateTime, y: DateTime, rest: string)
    requires |fmt| >= 2 && fmt[0] == Year && fmt[1].Literal?
    requires Step(s, Year, acc) == Some((y, rest))
    requires rest != [] && LowerChar(rest[0]) != LowerChar(fmt[1].c)
    ensures Scan(s, fmt, acc).None?
  {
    assert Scan(s, fmt, acc) == Scan(rest, fmt[1..], y);
    assert fmt[1..][0] == fmt[1];
  }

  /**
   * A format that starts with the year, a literal and the month stops there
   * when the literal is matched and the month is refused.
   */
  lemma StopsAtMonth(s: string, fmt: seq<Directive>, acc: DateTime, y: DateTime, rest: string)
    requires |fmt| >= 3 && fmt[0] == Year && fmt[1].Literal? && fmt[2] == Month
    requires Step(s, Year, acc) == Some((y, rest))
    requires rest != [] && LowerChar(rest[0]) == LowerChar(fmt[1].c)
    requires Step(rest[1..], Month, y).None?
    ensures Scan(s, fmt, acc).None?
  {
    assert Scan(s, fmt, acc) == Scan(rest, fmt[1..], y);
    assert fmt[1..][0] == fmt[1];
    assert Step(rest, fmt[1], y) == Some((y, rest[1..]));
    assert Scan(rest, fmt[1..], y) == Scan(rest[1..], fmt[1..][1..], y);
    assert fmt[1..][1..][0] == Month;
  }

  /** A string starting "0000:00:" does not match the photo format: month 00 is refused. */
  lemma ZeroDatePhoto(s: string)
    requires |s| >= 8 && s[0] == s[1] == s[2] == s[3] == '0' && s[4] == ':'
    requires s[5] == s[6] == '0' && s[7] == ':'
    ensures Scan(s, PhotoFormat, Defaults).None?
  {
    ZeroYear(s, Defaults);
    var t := s[4..];
    assert t[1..][0] == '0' && t[1..][1] == '0' && t[1..][2] == ':';
    ZeroMonthRefused(t[1..], Defaults.(year := 0));
    StopsAtMonth(s, PhotoFormat, Defaults, Defaults.(year := 0), t);
  }

  /** A string starting "0000:" does not match a video format, which wants '-' after the year. */
  lemma ZeroDateVideo(s: string, fmt: seq<Directive>)
    requires |s| >= 5 && s[0] == s[1] == s[2] == s[3] == '0' && s[4] == ':'
    requires fmt == VideoFractionFormat || fmt == VideoFormat
    ensures Scan(s, fmt, Defaults).None?
  {
    ZeroYear(s, Defaults);
    assert |fmt| >= 2 && fmt[0] == Year && fmt[1] == Literal('-');
    StopsAfterYear(s, fmt, Defaults, Defaults.(year := 0), s[4..]);
  }

  /** The all-zero sentinel is no date in any of the three formats even without its own test. */
  lemma SentinelNeverParses()
    ensures Parse(Sentinel, PhotoFormat).None?
    ensures Parse(Sentinel, VideoFractionFormat).None?
    ensures Parse(Sentinel, VideoFormat).None?
  {
    var s := Sentinel;
    ZeroDatePhoto(s);
    ZeroDateVideo(s, VideoFractionFormat);
    ZeroDateVideo(s, VideoFormat);
  }

  /** For the organizer's formats, extract_date is strptime with None for a missing string. */
  lemma ExtractDateIsParse(s: string, fmt: seq<Directive>)
    requires fmt == PhotoFormat || fmt == VideoFractionFormat || fmt == VideoFormat
    ensures ExtractDate(Some(s), fmt) == Parse(s, fmt)
  {
    SentinelNeverParses();
  }

  // ---------------------------------------------------------------------------
  // Formatting and reading back

  /** What `strftime` writes for one directive; %Y is given four digits, so years from 1000 on. */
  function Render(t: DateTime, d: Directive): string
    requires ValidDateTime(t)
  {
    match d
    case Year => Show(t.year)
    case Month => Padded(t.month, 2)
    case Day => Padded(t.day, 2)
    case Hour => Padded(t.hour, 2)
    case Minute => Padded(t.minute, 2)
    case Second => Padded(t.second, 2)
    case Fraction => Padded(t.microsecond, 6)
    case Space => " "
    case Literal(c) => [c]
  }

  /** `t.strftime(fmt)`. */
  function Strftime(t: DateTime, fmt: seq<Directive>): (r: string)
    requires ValidDateTime(t)
    ensures |r| >= |fmt|
  {
    if fmt == [] then [] else Render(t, fmt[0]) + Strftime(t, fmt[1..])
  }

  /** The values a scan collects from a string that t was formatted into. */
  function Fill(acc: DateTime, t: DateTime, fmt: seq<Directive>): DateTime
    decreases fmt
  {
    if fmt == [] then acc else Fill(Store(acc, fmt[0], Get(t, fmt[0])), t, fmt[1..])
  }

  /**
   * A format whose fields never touch: a field is followed by a literal that is
   * not a digit, by whitespace or by the end, and literals are neither digits
   * nor whitespace. The three formats are of this kind.
   */
  predicate Separated(fmt: seq<Directive>) {
    fmt == [] ||
    (&& (fmt[0].Literal? ==> !IsDigit(fmt[0].c) && !IsSpace(fmt[0].c))
     && (|fmt| > 1 ==> !(IsField(fmt[0]) && IsField(fmt[1])) && !(fmt[0].Space? && fmt[1].Space?))
     && Separated(fmt[1..]))
  }

  lemma {:induction false} DigitRunAppend(a: string, b: string)
    requires AllDigits(a) && (b == [] || !IsDigit(b[0]))
    ensures DigitRun(a + b) == |a|
  {
    if a == [] {
      assert a + b == b;
    } else {
      assert (a + b)[1..] == a[1..] + b;
      DigitRunAppend(a[1..], b);
    }
  }

  /** The first character strftime writes for a directive. */
  lemma RenderStart(t: DateTime, d: Directive)
    requires ValidDateTime(t)
    ensures |Render(t, d)| >= 1
    ensures IsField(d) ==> AllDigits(Render(t, d))
    ensures d.Space? ==> Render(t, d)[0] == ' '
    ensures d.Literal? ==> Render(t, d)[0] == d.c
  {
  }

  /** A field whose digits are followed by a non-digit is read as those digits. */
  lemma FieldStep(r: string, rest: string, d: Directive, acc: DateTime)
    requires IsField(d) && AllDigits(r) && |r| >= 1 && Accepts(d, r)
    requires rest == [] || !IsDigit(rest[0])
    ensures Step(r + rest, d, acc) == Some((Store(acc, d, FieldValue(d, r)), rest))
  {
    var s := r + rest;
    DigitRunAppend(r, rest);
    assert s[0] != ' ';
    assert s[..|r|] == r && s[|r|..] == rest;
  }

  /** A zero-padded field of the right width and range is read back as its value. */
  lemma PaddedStep(v: nat, width: nat, d: Directive, rest: string, acc: DateTime)
    requires IsField(d) && d != Year
    requires d == Fraction ==> width == 6 && v < 1000000
    requires d != Fraction ==> width == 2 && v < 100
    requires d == Month ==> 1 <= v <= 12
    requires d == Day ==> 1 <= v <= 31
    requires d == Hour ==> v < 24
    requires d == Minute || d == Second ==> v < 60
    requires rest == [] || !IsDigit(rest[0])
    ensures Step(Padded(v, width) + rest, d, acc) == Some((Store(acc, d, v), rest))
  {
    var r := Padded(v, width);
    if d == Fraction {
      assert Pow10(6) == 1000000;
    } else {
      assert Pow10(2) == 100;
    }
    ValueOfPadded(v, width);
    assert Accepts(d, r);
    assert FieldValue(d, r) == v;
    FieldStep(r, rest, d, acc);
  }

  /** The year, written with four digits, is read back. */
  lemma YearStep(y: nat, rest: string, acc: DateTime)
    requires 1000 <= y <= 9999
    requires rest == [] || !IsDigit(rest[0])
    ensures Step(Show(y) + rest, Year, acc) == Some((acc.(year := y), rest))
  {
    ShowFourDigits(y);
    ValueOfShow(y);
    FieldStep(Show(y), rest, Year, acc);
  }

  /** Reading one directive back from what strftime wrote for it. */
  lemma StepRender(t: DateTime, d: Directive, rest: string, acc: DateTime)
    requires ValidDateTime(t) && 1000 <= t.year
    requires IsField(d) ==> rest == [] || !IsDigit(rest[0])
    requires d.Space? ==> rest == [] || !IsSpace(rest[0])
    ensures Step(Render(t, d) + rest, d, acc) == Some((Store(acc, d, Get(t, d)), rest))
  {
    var s := Render(t, d) + rest;
    match d
    case Space =>
      assert s[1..] == rest;
      assert SpaceRun(s) == 1;
    case Literal(c) =>
      assert s[1..] == rest;
    case Year =>
      YearStep(t.year, rest, acc);
    case Fraction =>
      PaddedStep(t.microsecond, 6, d, rest, acc);
    case Month =>
      PaddedStep(t.month, 2, d, rest, acc);
    case Day =>
      PaddedStep(t.day, 2, d, rest, acc);
    case Hour =>
      PaddedStep(t.hour, 2, d, rest, acc);
    case Minute =>
      PaddedStep(t.minute, 2, d, rest, acc);
    case Second =>
      PaddedStep(t.second, 2, d, rest, acc);
  }

  /** Scanning what strftime wrote collects exactly the formatted values. */
  lemma {:induction false} ScanStrftime(t: DateTime, fmt: seq<Directive>, acc: DateTime)
    requires ValidDateTime(t) && 1000 <= t.year && Separated(fmt)
    ensures Scan(Strftime(t, fmt), fmt, acc) == Some((Fill(acc, t, fmt), ""))
  {
    if fmt != [] {
      var d := fmt[0];
      var rest := Strftime(t, fmt[1..]);
      if |fmt| > 1 {
        RenderStart(t, fmt[1]);
        assert rest == Render(t, fmt[1]) + Strftime(t, fmt[2..]);
        assert rest[0] == Render(t, fmt[1])[0];
        assert !(IsField(fmt[0]) && IsField(fmt[1]));
        assert !(fmt[0].Space? && fmt[1].Space?);
      }
      StepRender(t, d, rest, acc);
      ScanStrftime(t, fmt[1..], Store(acc, d, Get(t, d)));
    }
  }

  /** A field the format has is taken from t; one it lacks keeps its starting value. */
  lemma {:induction false} FillGet(acc: DateTime, t: DateTime, fmt: seq<Directive>, d: Directive)
    requires IsField(d)
    ensures Get(Fill(acc, t, fmt), d) == if d in fmt then Get(t, d) else Get(acc, d)
    decreases fmt
  {
    if fmt != [] {
      FillGet(Store(acc, fmt[0], Get(t, fmt[0])), t, fmt[1..], d);
      assert d in fmt <==> d == fmt[0] || d in fmt[1..] by {
        assert fmt == [fmt[0]] + fmt[1..];
      }
    }
  }

  /**
   * Every date from the year 1000 on survives formatting and parsing with a
   * format that has all six date and time fields; the microseconds survive when
   * the format has %f and must be zero otherwise.
   */
  lemma RoundTrip(t: DateTime, fmt: seq<Directive>)
    requires ValidDateTime(t) && 1000 <= t.year
    requires Separated(fmt)
    requires Year in fmt && Month in fmt && Day in fmt && Hour in fmt && Minute in fmt && Second in fmt
    requires Fraction in fmt || t.microsecond == 0
    ensures Parse(Strftime(t, fmt), fmt) == Some(t)
  {
    ScanStrftime(t, fmt, Defaults);
    var f := Fill(Defaults, t, fmt);
    FillGet(Defaults, t, fmt, Year);
    FillGet(Defaults, t, fmt, Month);
    FillGet(Defaults, t, fmt, Day);
    FillGet(Defaults, t, fmt, Hour);
    FillGet(Defaults, t, fmt, Minute);
    FillGet(Defaults, t, fmt, Second);
    FillGet(Defaults, t, fmt, Fraction);
    assert f == t;
  }

  lemma PhotoFormatSeparated()
    ensures Separated(PhotoFormat)
  {
    var f := PhotoFormat;
    assert Separated(f[10..]);
    assert Separated(f[9..]);
    assert Separated(f[8..]);
    assert Separated(f[7..]);
    assert Separated(f[6..]);
    assert Separated(f[5..]);
    assert Separated(f[4..]);
    assert Separated(f[3..]);
    assert Separated(f[2..]);
    assert Separated(f[1..]);
  }

  lemma VideoFormatsSeparated()
    ensures Separated(VideoFractionFormat) && Separated(VideoFormat)
  {
    var f := VideoFractionFormat;
    assert Separated(f[13..]);
    assert Separated(f[12..]);
    assert Separated(f[11..]);
    assert Separated(f[10..]);
    assert Separated(f[9..]);
    assert Separated(f[8..]);
    assert Separated(f[7..]);
    assert Separated(f[6..]);
    assert Separated(f[5..]);
    assert Separated(f[4..]);
    assert Separated(f[3..]);
    assert Separated(f[2..]);
    assert Separated(f[1..]);
    assert f[1..][1..] == f[2..];
    var g := VideoFormat;
    assert g[1..] == f[1..11] + [Literal('Z')];
    assert Separated(g[11..]);
    assert Separated(g[10..]);
    assert Separated(g[9..]);
    assert Separated(g[8..]);
    assert Separated(g[7..]);
    assert Separated(g[6..]);
    assert Separated(g[5..]);
    assert Separated(g[4..]);
    assert Separated(g[3..]);
    assert Separated(g[2..]);
    assert Separated(g[1..]);
  }

  /** Only the first video format has %f. */
  lemma FormatsWithoutFraction()
    ensures Fraction !in PhotoFormat && Fraction !in VideoFormat
  {
    assert forall i :: 0 <= i < |PhotoFormat| ==> PhotoFormat[i] != Fraction;
    assert forall i :: 0 <= i < |VideoFormat| ==> VideoFormat[i] != Fraction;
  }

  /** A format without %f writes the same text whatever the microseconds are. */
  lemma {:induction false} StrftimeIgnoresMicro(t: DateTime, fmt: seq<Directive>)
    requires ValidDateTime(t) && Fraction !in fmt
    ensures Strftime(t, fmt) == Strftime(t.(microsecond := 0), fmt)
  {
    if fmt != [] {
      assert Fraction !in fmt[1..];
      StrftimeIgnoresMicro(t, fmt[1..]);
    }
  }

  /**
   * The creation-time fallback for photos writes "%Y:%m:%d %H:%M:%S" and the
   * photo path parses it back with the same format: the same date and time,
   * down to the second, since %S drops the microseconds.
   */
  lemma PhotoFallbackRoundTrip(t: DateTime)
    requires ValidDateTime(t) && 1000 <= t.year
    ensures ExtractDate(Some(Strftime(t, PhotoFormat)), PhotoFormat) == Some(t.(microsecond := 0))
  {
    FormatsWithoutFraction();
    var u := t.(microsecond := 0);
    StrftimeIgnoresMicro(t, PhotoFormat);
    PhotoSecondsRoundTrip(u);
  }

  /** The photo round trip for a time without microseconds. */
  lemma PhotoSecondsRoundTrip(u: DateTime)
    requires ValidDateTime(u) && 1000 <= u.year && u.microsecond == 0
    ensures ExtractDate(Some(Strftime(u, PhotoFormat)), PhotoFormat) == Some(u)
  {
    PhotoFormatSeparated();
    assert Year in PhotoFormat && Month in PhotoFormat && Day in PhotoFormat;
    assert Hour in PhotoFormat && Minute in PhotoFormat && Second in PhotoFormat;
    RoundTrip(u, PhotoFormat);
    ExtractDateIsParse(Strftime(u, PhotoFormat), PhotoFormat);
  }

  /** A creation time written with fractional seconds is a video date with those microseconds. */
  lemma VideoFractionRoundTrip(t: DateTime)
    requires ValidDateTime(t) && 1000 <= t.year
    ensures VideoDate(Some(Strftime(t, VideoFractionFormat))) == Some(t)
  {
    VideoFormatsSeparated();
    var f := VideoFractionFormat;
    assert f[0] == Year && f[2] == Month && f[4] == Day && f[6] == Hour && f[8] == Minute && f[10] == Second && f[12] == Fraction;
    RoundTrip(t, f);
    ExtractDateIsParse(Strftime(t, f), f);
  }

  /**
   * A creation time written without fractional seconds is a video date as
   * well, read by the second format, down to the second.
   */
  lemma VideoPlainRoundTrip(t: DateTime)
    requires ValidDateTime(t) && 1000 <= t.year
    ensures VideoDate(Some(Strftime(t, VideoFormat))) == Some(t.(microsecond := 0))
  {
    FormatsWithoutFraction();
    var u := t.(microsecond := 0);
    StrftimeIgnoresMicro(t, VideoFormat);
    VideoSecondsRoundTrip(u);
  }

  /** The plain video round trip for a time without microseconds. */
  lemma VideoSecondsRoundTrip(u: DateTime)
    requires ValidDateTime(u) && 1000 <= u.year && u.microsecond == 0
    ensures VideoDate(Some(Strftime(u, VideoFormat))) == Some(u)
  {
    var f := VideoFormat;
    VideoFormatsSeparated();
    assert f[0] == Year && f[2] == Month && f[4] == Day && f[6] == Hour && f[8] == Minute && f[10] == Second;
    RoundTrip(u, f);
    ExtractDateIsParse(Strftime(u, f), f);
    VideoFormatsExclusive(Strftime(u, f));
    ExtractDateIsParse(Strftime(u, f), VideoFractionFormat);
  }

  // ---------------------------------------------------------------------------
  // Where the year and month come from

  /** Directives other than d leave d's value alone. */
  lemma {:induction false} ScanKeeps(s: string, fmt: seq<Directive>, acc: DateTime, d: Directive)
    requires IsField(d) && d !in fmt && Scan(s, fmt, acc).Some?
    ensures Get(Scan(s, fmt, acc).value.0, d) == Get(acc, d)
    decreases fmt
  {
    if fmt != [] {
      var (next, rest) := Step(s, fmt[0], acc).value;
      assert fmt[0] != d;
      assert Get(next, d) == Get(acc, d);
      assert d !in fmt[1..];
      ScanKeeps(rest, fmt[1..], next, d);
    }
  }

  /**
   * A parsed date's year is the number in the string's first four characters,
   * and its month the one- or two-digit number after the separator that follows.
   */
  lemma YearAndMonthAsWritten(s: string, fmt: seq<Directive>)
    requires |fmt| >= 3 && fmt[0] == Year && fmt[1].Literal? && fmt[2] == Month
    requires Year !in fmt[3..] && Month !in fmt[3..]
    requires Parse(s, fmt).Some?
    ensures |s| >= 5 && AllDigits(s[..4]) && Parse(s, fmt).value.year == Value(s[..4])
    ensures 1 <= DigitRun(s[5..]) <= 2 && Parse(s, fmt).value.month == Value(s[5..][..DigitRun(s[5..])])
  {
    assert Scan(s, fmt, Defaults).Some?;
    assert Step(s, Year, Defaults).Some?;
    var (y, r1) := Step(s, Year, Defaults).value;
    assert |s| >= 4 && s[..4] == s[..DigitRun(s)] && r1 == s[4..];
    assert Scan(s, fmt, Defaults) == Scan(r1, fmt[1..], y);
    assert fmt[1..][0] == fmt[1];
    assert Step(r1, fmt[1], y).Some?;
    var (y2, r2) := Step(r1, fmt[1], y).value;
    assert r2 == s[5..] && y2 == y;
    assert Scan(r1, fmt[1..], y) == Scan(r2, fmt[1..][1..], y2);
    assert fmt[1..][1..][0] == Month;
    assert Step(r2, Month, y2).Some?;
    var (m, r3) := Step(r2, Month, y2).value;
    assert fmt[1..][1..][1..] == fmt[3..];
    assert Scan(r2, fmt[1..][1..], y2) == Scan(r3, fmt[3..], m);
    ScanKeeps(r3, fmt[3..], m, Year);
    ScanKeeps(r3, fmt[3..], m, Month);
  }

  /** The same for the organizer's three formats. */
  lemma DateAsWritten(s: string, fmt: seq<Directive>)
    requires fmt == PhotoFormat || fmt == VideoFractionFormat || fmt == VideoFormat
    requires Parse(s, fmt).Some?
    ensures |s| >= 5 && AllDigits(s[..4]) && Parse(s, fmt).value.year == Value(s[..4])
    ensures 1 <= DigitRun(s[5..]) <= 2 && Parse(s, fmt).value.month == Value(s[5..][..DigitRun(s[5..])])
  {
    FormatsStartWithYearAndMonth(fmt);
    YearAndMonthAsWritten(s, fmt);
  }

  /** Each of the three formats starts with the year, a separator and the month, and has neither again. */
  lemma FormatsStartWithYearAndMonth(fmt: seq<Directive>)
    requires fmt == PhotoFormat || fmt == VideoFractionFormat || fmt == VideoFormat
    ensures |fmt| >= 3 && fmt[0] == Year && fmt[1].Literal? && fmt[2] == Month
    ensures Year !in fmt[3..] && Month !in fmt[3..]
  {
    if fmt == PhotoFormat {
      assert fmt[3..] == [Literal(':'), Day, Space, Hour, Literal(':'), Minute, Literal(':'), Second];
    } else if fmt == VideoFractionFormat {
      assert fmt[3..] == [Literal('-'), Day, Literal('T'), Hour, Literal(':'), Minute, Literal(':'), Second,
                          Literal('.'), Fraction, Literal('Z')];
    } else {
      assert fmt[3..] == [Literal('-'), Day, Literal('T'), Hour, Literal(':'), Minute, Literal(':'), Second, Literal('Z')];
    }
  }
}
