/** `Duration.humanReadableString()`: the elapsed time shown as "last seen
    ... ago". A duration is a non-negative whole number of milliseconds
    (Kotlin's `inWholeMilliseconds`; every threshold the formatter compares against is
    a whole number of milliseconds, so truncating first picks the same
    branch). The formatter is split in two: `Layout` picks the format and
    the numbers that fill it, `Render` prints them; `Parse` reads a
    rendering back. */
module Utils {
  import opened Wrappers
  import opened Decimal

  const MillisPerSecond: nat := 1000
  const MillisPerTenSeconds: nat := 10 * MillisPerSecond
  const MillisPerMinute: nat := 60 * MillisPerSecond
  const MillisPerHour: nat := 60 * MillisPerMinute

  /** The five display formats and the numbers that fill them. */
  datatype Rendering =
    | Millis(ms: nat)                                         // "<ms> ms"
    | SecondsMillis(seconds: nat, millis: nat)                // "<s>.<mmm> s"
    | Seconds(seconds: nat)                                   // "<s> s"
    | MinutesSeconds(minutes: nat, seconds: nat)              // "<m>:<ss>"
    | HoursMinutesSeconds(hours: nat, minutes: nat, seconds: nat)  // "<h>:<mm>:<ss>"

  /** The `when` of utils.kt: thresholds compared in increasing order, each
      format filled with `/` and `%` (equal to Kotlin's on non-negative
      operands). The contract says which branch applies, the bounds of
      each field and how the fields recombine to the duration. */
  function Layout(ms: nat): (r: Rendering)
    ensures r.Millis? <==> ms < MillisPerSecond
    ensures r.SecondsMillis? <==> MillisPerSecond <= ms < MillisPerTenSeconds
    ensures r.Seconds? <==> MillisPerTenSeconds <= ms < MillisPerMinute
    ensures r.MinutesSeconds? <==> MillisPerMinute <= ms < MillisPerHour
    ensures r.HoursMinutesSeconds? <==> MillisPerHour <= ms
    ensures r.Millis? ==> r.ms == ms
    ensures r.SecondsMillis? ==>
      1 <= r.seconds < 10 && r.millis < 1000 && r.seconds * 1000 + r.millis == ms
    ensures r.Seconds? ==> 10 <= r.seconds < 60 && r.seconds == ms / 1000
    ensures r.MinutesSeconds? ==>
      1 <= r.minutes < 60 && r.seconds < 60 && r.minutes * 60 + r.seconds == ms / 1000
    ensures r.HoursMinutesSeconds? ==>
      1 <= r.hours && r.minutes < 60 && r.seconds < 60 &&
      r.hours * 3600 + r.minutes * 60 + r.seconds == ms / 1000
  {
    if ms < MillisPerSecond then Millis(ms)
    else if ms < MillisPerTenSeconds then SecondsMillis(ms / 1000, ms % 1000)
    else if ms < MillisPerMinute then Seconds(ms / 1000)
    else if ms < MillisPerHour then
      var s := ms / 1000;
      MinutesSecondsSplit(s);
      MinutesSeconds(s / 60, s % 60)
    else
      var s := ms / 1000;
      HoursMinutesSecondsSplit(s);
      HoursMinutesSeconds(s / 3600, (s % 3600) / 60, s % 60)
  }

  /** `s / 60` and `s % 60` are whole minutes and the seconds left over. */
  lemma MinutesSecondsSplit(s: nat)
    ensures (s / 60) * 60 + s % 60 == s && s % 60 < 60
    ensures 60 <= s < 3600 ==> 1 <= s / 60 < 60
  {
  }

  /** `s / 3600`, `(s % 3600) / 60` and `s % 60` are whole hours, the
      minutes left over and the seconds left over. */
  lemma HoursMinutesSecondsSplit(s: nat)
    ensures (s / 3600) * 3600 + ((s % 3600) / 60) * 60 + s % 60 == s
    ensures (s % 3600) / 60 < 60 && s % 60 < 60
    ensures 3600 <= s ==> 1 <= s / 3600
  {
    var h, rest := s / 3600, s % 3600;
    assert s == h * 3600 + rest;
    var m, sec := rest / 60, rest % 60;
    assert rest == m * 60 + sec;
    assert s == (h * 60 + m) * 60 + sec;
    DivModUnique(s, h * 60 + m, sec);
  }

  lemma DivModUnique(s: nat, q: nat, r: nat)
    requires s == q * 60 + r && r < 60
    ensures s % 60 == r
  {
  }

  /** The format strings of utils.kt: `"$n ms"`, `"%d.%03d s"`, `"$n s"`,
      `"%d:%02d"` and `"%d:%02d:%02d"`. The unit suffix tells the formats
      apart: " ms" only for milliseconds, " s" only for the two seconds
      formats, and the clock formats end in a digit. */
  function Render(r: Rendering): (t: string)
    ensures r.Millis? <==> EndsWith(t, " ms")
    ensures (r.SecondsMillis? || r.Seconds?) <==> EndsWith(t, " s")
  {
    match r
    case Millis(ms) =>
      var t := NatToDecimal(ms) + " ms";
      assert t[|t| - 3..] == " ms" && t[|t| - 2] == 'm';
      t
    case SecondsMillis(s, m) =>
      var t := NatToDecimal(s) + "." + ZeroPadded(m, 3) + " s";
      assert t[|t| - 2..] == " s" && t[|t| - 2] == ' ';
      t
    case Seconds(s) =>
      var t := NatToDecimal(s) + " s";
      assert t[|t| - 2..] == " s" && t[|t| - 2] == ' ';
      t
    case MinutesSeconds(m, s) =>
      var p := ZeroPadded(s, 2);
      var t := NatToDecimal(m) + ":" + p;
      assert t[|t| - 1] == p[|p| - 1];
      t
    case HoursMinutesSeconds(h, m, s) =>
      var p := ZeroPadded(s, 2);
      var t := NatToDecimal(h) + ":" + ZeroPadded(m, 2) + ":" + p;
      assert t[|t| - 1] == p[|p| - 1];
      t
  }

  /** `Duration.humanReadableString()` of utils.kt: milliseconds under a
      second, seconds under a minute, a clock reading from a minute on. */
  function HumanReadableString(ms: nat): (t: string)
    ensures EndsWith(t, " ms") <==> ms < MillisPerSecond
    ensures EndsWith(t, " s") <==> MillisPerSecond <= ms < MillisPerMinute
  {
    Render(Layout(ms))
  }

  // ---------------------------------------------------------------------
  // Reading a rendering back

  predicate EndsWith(t: string, suffix: string) {
    |suffix| <= |t| && t[|t| - |suffix|..] == suffix
  }

  /** The first position of `c` in `t`, if any. */
  function IndexOf(t: string, c: char): (r: Option<nat>)
    ensures r.Some? ==> r.value < |t| && t[r.value] == c && c !in t[..r.value]
    ensures r.None? ==> c !in t
  {
    if t == [] then None
    else if t[0] == c then Some(0)
    else match IndexOf(t[1..], c)
      case None => None
      case Some(i) =>
        assert t[..i + 1] == [t[0]] + t[1..][..i];
        Some(i + 1)
  }

  /** A non-empty run of digits and its value. */
  function ParseNumber(t: string): Option<nat> {
    if t != [] && AllDigits(t) then Some(DecimalValue(t)) else None
  }

  /** Recovers the format and the numbers from a displayed duration. */
  function Parse(t: string): Option<Rendering> {
    if EndsWith(t, " ms") then ParseMillis(t[..|t| - 3])
    else if EndsWith(t, " s") then ParseSeconds(t[..|t| - 2])
    else ParseClock(t)
  }

  /** The number before " ms". */
  function ParseMillis(body: string): Option<Rendering> {
    match ParseNumber(body)
    case Some(n) => Some(Millis(n))
    case None => None
  }

  /** What precedes " s": `<s>.<mmm>` or `<s>`. */
  function ParseSeconds(body: string): Option<Rendering> {
    match IndexOf(body, '.')
    case Some(i) =>
      (match (ParseNumber(body[..i]), ParseNumber(body[i + 1..]))
       case (Some(s), Some(m)) => Some(SecondsMillis(s, m))
       case _ => None)
    case None =>
      (match ParseNumber(body)
       case Some(s) => Some(Seconds(s))
       case None => None)
  }

  /** A clock reading: `<m>:<ss>` or `<h>:<mm>:<ss>`. */
  function ParseClock(t: string): Option<Rendering> {
    match IndexOf(t, ':')
    case None => None
    case Some(i) =>
      var head, rest := t[..i], t[i + 1..];
      match IndexOf(rest, ':')
      case None =>
        (match (ParseNumber(head), ParseNumber(rest))
         case (Some(m), Some(s)) => Some(MinutesSeconds(m, s))
         case _ => None)
      case Some(j) =>
        (match (ParseNumber(head), ParseNumber(rest[..j]), ParseNumber(rest[j + 1..]))
         case (Some(h), Some(m), Some(s)) => Some(HoursMinutesSeconds(h, m, s))
         case _ => None)
  }

  lemma DigitsParse(n: nat)
    ensures ParseNumber(NatToDecimal(n)) == Some(n)
  {
    NatToDecimalRoundTrip(n);
  }

  lemma PaddedParse(n: nat, w: nat)
    ensures ParseNumber(ZeroPadded(n, w)) == Some(n)
  {
    ZeroPaddedValue(n, w);
  }

  lemma NoSeparatorInDigits(s: string, c: char)
    requires AllDigits(s) && !IsDigit(c)
    ensures c !in s
  {
  }

  /** Text ending in a digit has neither unit suffix, so it is read as a
      clock reading. */
  lemma ClockFormIsParsedAsClock(t: string)
    requires t != [] && IsDigit(t[|t| - 1])
    ensures Parse(t) == ParseClock(t)
  {
  }

  /** Text ending in " s" after a digit is read as seconds. */
  lemma SecondsFormIsParsedAsSeconds(body: string)
    requires body != [] && IsDigit(body[|body| - 1])
    ensures Parse(body + " s") == ParseSeconds(body)
  {
    var t := body + " s";
    assert t[|t| - 3] == body[|body| - 1];
    assert !EndsWith(t, " ms");
    assert t[..|t| - 2] == body;
  }

  /** Cutting at the first separator gives back the two sides. */
  lemma SplitAtFirst(a: string, c: char, b: string)
    requires c !in a
    ensures var t := a + [c] + b;
      IndexOf(t, c) == Some(|a|) && t[..|a|] == a && t[|a| + 1..] == b
  {
    var t := a + [c] + b;
    assert t[..|a|] == a && t[|a|] == c;
    assert t[|a| + 1..] == b;
  }

  lemma ParseRenderMillis(ms: nat)
    ensures Parse(Render(Millis(ms))) == Some(Millis(ms))
  {
    var t, d := Render(Millis(ms)), NatToDecimal(ms);
    assert t[..|t| - 3] == d;
    DigitsParse(ms);
  }

  lemma ParseRenderSecondsMillis(s: nat, m: nat)
    ensures Parse(Render(SecondsMillis(s, m))) == Some(SecondsMillis(s, m))
  {
    var d, p := NatToDecimal(s), ZeroPadded(m, 3);
    var body := d + "." + p;
    assert Render(SecondsMillis(s, m)) == body + " s";
    SecondsFormIsParsedAsSeconds(body);
    NoSeparatorInDigits(d, '.');
    SplitAtFirst(d, '.', p);
    DigitsParse(s);
    PaddedParse(m, 3);
  }

  lemma ParseRenderSeconds(s: nat)
    ensures Parse(Render(Seconds(s))) == Some(Seconds(s))
  {
    var d := NatToDecimal(s);
    SecondsFormIsParsedAsSeconds(d);
    NoSeparatorInDigits(d, '.');
    DigitsParse(s);
  }

  /** `<a>:<b>` with two runs of digits reads as minutes and seconds. */
  lemma ParseClockTwoFields(a: string, b: string)
    requires a != [] && b != [] && AllDigits(a) && AllDigits(b)
    ensures ParseClock(a + ":" + b) == Some(MinutesSeconds(DecimalValue(a), DecimalValue(b)))
  {
    NoSeparatorInDigits(a, ':');
    NoSeparatorInDigits(b, ':');
    SplitAtFirst(a, ':', b);
  }

  /** `<a>:<b>:<c>` with three runs of digits reads as hours, minutes and
      seconds. */
  lemma ParseClockThreeFields(a: string, b: string, c: string)
    requires a != [] && b != [] && c != [] && AllDigits(a) && AllDigits(b) && AllDigits(c)
    ensures ParseClock(a + ":" + (b + ":" + c)) ==
      Some(HoursMinutesSeconds(DecimalValue(a), DecimalValue(b), DecimalValue(c)))
  {
    NoSeparatorInDigits(a, ':');
    NoSeparatorInDigits(b, ':');
    SplitAtFirst(a, ':', b + ":" + c);
    SplitAtFirst(b, ':', c);
  }

  lemma ParseRenderMinutesSeconds(m: nat, s: nat)
    ensures Parse(Render(MinutesSeconds(m, s))) == Some(MinutesSeconds(m, s))
  {
    var t := Render(MinutesSeconds(m, s));
    var d, p := NatToDecimal(m), ZeroPadded(s, 2);
    assert t[|t| - 1] == p[|p| - 1];
    ClockFormIsParsedAsClock(t);
    ParseClockTwoFields(d, p);
    NatToDecimalRoundTrip(m);
    ZeroPaddedValue(s, 2);
  }

  lemma ParseRenderHoursMinutesSeconds(h: nat, m: nat, s: nat)
    ensures Parse(Render(HoursMinutesSeconds(h, m, s))) == Some(HoursMinutesSeconds(h, m, s))
  {
    var t := Render(HoursMinutesSeconds(h, m, s));
    var d, p, q := NatToDecimal(h), ZeroPadded(m, 2), ZeroPadded(s, 2);
    assert t == d + ":" + (p + ":" + q);
    assert t[|t| - 1] == q[|q| - 1];
    ClockFormIsParsedAsClock(t);
    ParseClockThreeFields(d, p, q);
    NatToDecimalRoundTrip(h);
    ZeroPaddedValue(m, 2);
    ZeroPaddedValue(s, 2);
  }

  /** Every rendering reads back as itself, so two different renderings
      never print the same text. */
  lemma {:induction false} ParseRender(r: Rendering)
    ensures Parse(Render(r)) == Some(r)
  {
    match r
    case Millis(ms) => ParseRenderMillis(ms);
    case SecondsMillis(s, m) => ParseRenderSecondsMillis(s, m);
    case Seconds(s) => ParseRenderSeconds(s);
    case MinutesSeconds(m, s) => ParseRenderMinutesSeconds(m, s);
    case HoursMinutesSeconds(h, m, s) => ParseRenderHoursMinutesSeconds(h, m, s);
  }

  /** The displayed text determines the duration's format and fields: in
      the `s.mmm` branch the printed numbers recombine to the milliseconds,
      in the `m:ss` and `h:mm:ss` branches to the whole seconds. */
  lemma DisplayedFieldsRecombine(ms: nat)
    ensures Parse(HumanReadableString(ms)) == Some(Layout(ms))
    ensures Parse(HumanReadableString(ms)).Some?
    ensures var r := Parse(HumanReadableString(ms)).value;
      && (r.Millis? ==> r.ms == ms)
      && (r.SecondsMillis? ==> r.seconds * 1000 + r.millis == ms)
      && (r.Seconds? ==> r.seconds == ms / 1000)
      && (r.MinutesSeconds? ==> r.minutes * 60 + r.seconds == ms / 1000)
      && (r.HoursMinutesSeconds? ==> r.hours * 3600 + r.minutes * 60 + r.seconds == ms / 1000)
  {
    ParseRender(Layout(ms));
  }

  lemma MillisFieldWidth(s: nat, m: nat)
    requires m < 1000
    ensures var t := Render(SecondsMillis(s, m));
      |t| >= 7 && t[|t| - 6] == '.' && t[|t| - 2..] == " s" &&
      AllDigits(t[|t| - 5..|t| - 2]) && DecimalValue(t[|t| - 5..|t| - 2]) == m
  {
    var t, p := Render(SecondsMillis(s, m)), ZeroPadded(m, 3);
    ZeroPaddedWidth(m, 3);
    ZeroPaddedValue(m, 3);
    assert t[|t| - 5..|t| - 2] == p;
  }

  lemma SecondsFieldWidth(m: nat, s: nat)
    requires s < 60
    ensures var t := Render(MinutesSeconds(m, s));
      |t| >= 4 && t[|t| - 3] == ':' && AllDigits(t[|t| - 2..]) && DecimalValue(t[|t| - 2..]) == s
  {
    var t, p := Render(MinutesSeconds(m, s)), ZeroPadded(s, 2);
    ZeroPaddedWidth(s, 2);
    ZeroPaddedValue(s, 2);
    assert t[|t| - 2..] == p;
  }

  lemma MinutesSecondsFieldWidths(h: nat, m: nat, s: nat)
    requires m < 60 && s < 60
    ensures var t := Render(HoursMinutesSeconds(h, m, s));
      |t| >= 7 && t[|t| - 6] == ':' && t[|t| - 3] == ':' &&
      AllDigits(t[|t| - 5..|t| - 3]) && DecimalValue(t[|t| - 5..|t| - 3]) == m &&
      AllDigits(t[|t| - 2..]) && DecimalValue(t[|t| - 2..]) == s
  {
    var t, p, q := Render(HoursMinutesSeconds(h, m, s)), ZeroPadded(m, 2), ZeroPadded(s, 2);
    ZeroPaddedWidth(m, 2);
    ZeroPaddedWidth(s, 2);
    ZeroPaddedValue(m, 2);
    ZeroPaddedValue(s, 2);
    assert t[|t| - 5..|t| - 3] == p;
    assert t[|t| - 2..] == q;
  }

  /** Zero padding: the milliseconds of `s.mmm` are exactly three digits
      between the point and " s"; the seconds of `m:ss`, and the minutes
      and seconds of `h:mm:ss`, are exactly two digits after a colon. */
  lemma PaddedFieldWidths(ms: nat)
    ensures var t, r := HumanReadableString(ms), Layout(ms);
      && (r.SecondsMillis? ==>
            |t| >= 7 && t[|t| - 6] == '.' && t[|t| - 2..] == " s" &&
            AllDigits(t[|t| - 5..|t| - 2]) && DecimalValue(t[|t| - 5..|t| - 2]) == r.millis)
      && (r.MinutesSeconds? ==>
            |t| >= 4 && t[|t| - 3] == ':' &&
            AllDigits(t[|t| - 2..]) && DecimalValue(t[|t| - 2..]) == r.seconds)
      && (r.HoursMinutesSeconds? ==>
            |t| >= 7 && t[|t| - 6] == ':' && t[|t| - 3] == ':' &&
            AllDigits(t[|t| - 5..|t| - 3]) && DecimalValue(t[|t| - 5..|t| - 3]) == r.minutes &&
            AllDigits(t[|t| - 2..]) && DecimalValue(t[|t| - 2..]) == r.seconds)
  {
    var r := Layout(ms);
    if r.SecondsMillis? {
      MillisFieldWidth(r.seconds, r.millis);
    } else if r.MinutesSeconds? {
      SecondsFieldWidth(r.minutes, r.seconds);
    } else if r.HoursMinutesSeconds? {
      MinutesSecondsFieldWidths(r.hours, r.minutes, r.seconds);
    }
  }

  /** Under one second the text is the millisecond count followed by
      " ms"; from ten seconds to a minute it is the whole seconds followed
      by " s". */
  lemma UnpaddedBranches(ms: nat)
    ensures ms < MillisPerSecond ==>
      HumanReadableString(ms) == NatToDecimal(ms) + " ms"
    ensures MillisPerTenSeconds <= ms < MillisPerMinute ==>
      HumanReadableString(ms) == NatToDecimal(ms / 1000) + " s"
  {
  }
}
