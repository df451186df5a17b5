/**
 * parseInt64 and parseDuration of exporter.go: the clip lengths the video
 * API reports as ISO 8601 durations in the format with designators (ISO
 * 8601:2004, section 4.4.3.2), such as `PT4M13S`, turned into nanoseconds.
 *
 * The pattern `P(\d+Y)?(\d+M)?(\d+D)?T?(\d+H)?(\d+M)?(\d+S)?` is written
 * out as a scan. Go's matcher is leftmost-first, so the match starts at the
 * first `P`; every part after it is optional, so each optional part takes
 * what it can at its position and the rest still matches. A group `\d+X`
 * can only take the whole run of digits in front of it, and only if an `X`
 * follows the run.
 */
module IsoDuration {
  import opened Common
  import opened Model

  // ---------------------------------------------------------------------------
  // strconv.Atoi and parseInt64
  // ---------------------------------------------------------------------------

  /**
   * strconv.Atoi on a 64-bit platform: an optional sign followed by at least
   * one decimal digit, whose value fits in an int64; anything else fails.
   */
  function Atoi(s: string): (r: Option<int>)
    ensures r.Some? ==> InInt64(r.value)
    ensures r.Some? ==> |s| > 0 && (AllDigits(s) || (|s| > 1 && (s[0] == '+' || s[0] == '-') && AllDigits(s[1..])))
    ensures AllDigits(s) && s != [] ==>
      r == if DigitsValue(s) < TwoTo63 then Some(DigitsValue(s)) else None
    ensures |s| > 1 && s[0] == '+' && AllDigits(s[1..]) ==>
      r == if DigitsValue(s[1..]) < TwoTo63 then Some(DigitsValue(s[1..]) as int) else None
    ensures |s| > 1 && s[0] == '-' && AllDigits(s[1..]) ==>
      r == if DigitsValue(s[1..]) <= TwoTo63 then Some(-(DigitsValue(s[1..]) as int)) else None
  {
    var signed := |s| > 0 && (s[0] == '+' || s[0] == '-');
    var body := if signed then s[1..] else s;
    if body == [] || !AllDigits(body) then None
    else
      var v: int := if signed && s[0] == '-' then -(DigitsValue(body) as int) else DigitsValue(body);
      if InInt64(v) then Some(v) else None
  }

  /**
   * parseInt64: 0 for the empty string; otherwise the value of the string
   * without its last character (the designator), or 0 when that is not a
   * number.
   */
  function ParseInt64(value: string): (r: int)
    ensures value == [] ==> r == 0
    ensures value != [] && Atoi(value[..|value| - 1]).None? ==> r == 0
    ensures InInt64(r)
  {
    if |value| == 0 then 0
    else
      match Atoi(value[..|value| - 1])
      case None => 0
      case Some(parsed) => parsed
  }

  /** A designated number `nX` reads back as n. */
  lemma ParseInt64Designated(n: nat, designator: char)
    requires n < TwoTo63
    ensures ParseInt64(DecimalString(n) + [designator]) == n
  {
    var s := DecimalString(n) + [designator];
    assert s[..|s| - 1] == DecimalString(n);
    DecimalStringValue(n);
  }

  /** A designated number of 2^63 or more does not fit an int64, and parseInt64 gives 0. */
  lemma ParseInt64Overflow(n: nat, designator: char)
    requires n >= TwoTo63
    ensures ParseInt64(DecimalString(n) + [designator]) == 0
  {
    var s := DecimalString(n) + [designator];
    assert s[..|s| - 1] == DecimalString(n);
    DecimalStringValue(n);
  }

  // ---------------------------------------------------------------------------
  // The pattern
  // ---------------------------------------------------------------------------

  /**
   * The optional group `(\d+X)?` at the front of s: what it matches (empty
   * when it does not take part) and what is left after it.
   */
  function Group(s: string, designator: char): (r: (string, string))
    ensures s == r.0 + r.1
  {
    var j := Lead(s);
    if j > 0 && j < |s| && s[j] == designator then
      assert s == s[..j + 1] + s[j + 1..];
      (s[..j + 1], s[j + 1..])
    else ("", s)
  }

  /** The first position of c in s. */
  function IndexOf(s: string, c: char): (r: Option<nat>)
    ensures r.None? <==> c !in s
    ensures r.Some? ==> r.value < |s| && s[r.value] == c && c !in s[..r.value]
  {
    if s == [] then None
    else if s[0] == c then Some(0)
    else
      var r := IndexOf(s[1..], c);
      assert s == [s[0]] + s[1..];
      if r.None? then None
      else
        assert s[..r.value + 1] == [s[0]] + s[1..][..r.value];
        Some(r.value + 1)
  }

  /** The six capture groups of a match (FindStringSubmatch's matches[1] to matches[6]). */
  datatype Groups = Groups(years: string, months: string, days: string, hours: string, minutes: string, seconds: string)

  /** The optional `T` between the date and the time groups. */
  function SkipT(s: string): string
  {
    if s != [] && s[0] == 'T' then s[1..] else s
  }

  /** The groups after the `P`: the date groups, an optional `T`, then the time groups. */
  function MatchAfterP(s: string): Groups
  {
    var years := Group(s, 'Y');
    var months := Group(years.1, 'M');
    var days := Group(months.1, 'D');
    var hours := Group(SkipT(days.1), 'H');
    var minutes := Group(hours.1, 'M');
    var seconds := Group(minutes.1, 'S');
    Groups(years.0, months.0, days.0, hours.0, minutes.0, seconds.0)
  }

  /** FindStringSubmatch: no match (nil) when s has no `P`, else the groups after its first `P`. */
  function Match(s: string): (r: Option<Groups>)
    ensures r.None? <==> 'P' !in s
  {
    match IndexOf(s, 'P')
    case None => None
    case Some(p) => Some(MatchAfterP(s[p + 1..]))
  }

  // ---------------------------------------------------------------------------
  // parseDuration
  // ---------------------------------------------------------------------------

  /**
   * parseDuration, in nanoseconds; None where the source indexes the nil
   * match of a string without `P` and panics. A year counts 365 days and a
   * month 30 days, and the int64 arithmetic wraps around.
   */
  function ParseDuration(str: string): (r: Option<int>)
    ensures r.None? <==> 'P' !in str
    ensures r.Some? ==> InInt64(r.value)
  {
    match Match(str)
    case None => None
    case Some(g) =>
      Some(Wrap64(Sum(ParseInt64(g.years), ParseInt64(g.months), ParseInt64(g.days),
                      ParseInt64(g.hours), ParseInt64(g.minutes), ParseInt64(g.seconds))))
  }

  /** The exact value of parseDuration's int64 expression, before wrap-around. */
  function Sum(years: int, months: int, days: int, hours: int, minutes: int, seconds: int): int
  {
    years * 24 * 365 * Hour + months * 30 * 24 * Hour + days * 24 * Hour
    + hours * Hour + minutes * Minute + seconds * Second
  }

  // ---------------------------------------------------------------------------
  // Durations written with designators
  // ---------------------------------------------------------------------------

  /** The components of a duration; an absent one is not written. */
  datatype Duration = Duration(years: Option<nat>, months: Option<nat>, days: Option<nat>,
                               hours: Option<nat>, minutes: Option<nat>, seconds: Option<nat>)

  /** One component written as `nX`, or nothing when absent. */
  function Component(n: Option<nat>, designator: char): string
  {
    if n.None? then "" else DecimalString(n.value) + [designator]
  }

  predicate HasTime(d: Duration) { d.hours.Some? || d.minutes.Some? || d.seconds.Some? }

  /** The duration written with designators: `P`, the date components, and `T` before any time component. */
  function Format(d: Duration): string
  {
    "P" + Component(d.years, 'Y') + Component(d.months, 'M') + Component(d.days, 'D') + TimeText(d)
  }

  function ValueOf(n: Option<nat>): nat { if n.None? then 0 else n.value }

  /** What the duration means: 365-day years, 30-day months, 24-hour days, in nanoseconds. */
  function Nanoseconds(d: Duration): int
  {
    ValueOf(d.years) * 365 * Day + ValueOf(d.months) * 30 * Day + ValueOf(d.days) * Day
    + ValueOf(d.hours) * Hour + ValueOf(d.minutes) * Minute + ValueOf(d.seconds) * Second
  }

  predicate Small(n: Option<nat>) { n.None? || n.value < TwoTo63 }

  /** A group stops in front of s: no digits, only digits, or digits followed by something else than X. */
  predicate Stops(s: string, designator: char)
  {
    Lead(s) == 0 || Lead(s) == |s| || s[Lead(s)] != designator
  }

  /** A written component is taken whole by its group. */
  lemma GroupTakes(n: Option<nat>, designator: char, rest: string)
    requires !IsDigit(designator)
    requires n.Some? || Stops(rest, designator)
    ensures Group(Component(n, designator) + rest, designator) == (Component(n, designator), rest)
  {
    if n.Some? {
      var digits := DecimalString(n.value);
      var s := digits + [designator] + rest;
      assert s == digits + ([designator] + rest);
      LeadDigits(digits, [designator] + rest);
      assert s[..|digits| + 1] == digits + [designator];
      assert s[|digits| + 1..] == rest;
    } else {
      assert Component(n, designator) + rest == rest;
    }
  }

  /** In front of a component with another designator, a group stops. */
  lemma StopsBefore(n: Option<nat>, other: char, rest: string, designator: char)
    requires !IsDigit(other) && other != designator
    requires Stops(rest, designator)
    ensures Stops(Component(n, other) + rest, designator)
  {
    if n.Some? {
      var digits := DecimalString(n.value);
      assert digits + [other] + rest == digits + ([other] + rest);
      LeadDigits(digits, [other] + rest);
      assert (digits + [other] + rest)[|digits|] == other;
    } else {
      assert Component(n, other) + rest == rest;
    }
  }

  /** The time part (`T` and what follows) in front of which the date groups stop. */
  lemma TimeStops(d: Duration, designator: char)
    ensures Stops(TimeText(d), designator)
  {
    if HasTime(d) {
      assert TimeText(d)[0] == 'T';
    } else {
      assert TimeText(d) == "";
    }
  }

  /** What follows the date components. */
  function TimeText(d: Duration): string
  {
    (if HasTime(d) then "T" else "")
    + Component(d.hours, 'H') + Component(d.minutes, 'M') + Component(d.seconds, 'S')
  }

  /** The time groups read the time components. */
  lemma MatchTime(d: Duration)
    ensures var hours := Group(SkipT(TimeText(d)), 'H');
            var minutes := Group(hours.1, 'M');
            var seconds := Group(minutes.1, 'S');
            hours.0 == Component(d.hours, 'H') && minutes.0 == Component(d.minutes, 'M')
            && seconds.0 == Component(d.seconds, 'S')
  {
    var ch, cmi, cs := Component(d.hours, 'H'), Component(d.minutes, 'M'), Component(d.seconds, 'S');
    var r5 := cmi + cs;
    var r4 := ch + r5;
    SkipTime(d);
    StopsEmpty('S');
    StopsEmpty('M');
    StopsEmpty('H');
    assert cs + "" == cs;
    StopsBefore(d.seconds, 'S', "", 'M');
    StopsBefore(d.seconds, 'S', "", 'H');
    StopsBefore(d.minutes, 'M', cs, 'H');
    GroupTakes(d.hours, 'H', r5);
    assert Group(SkipT(TimeText(d)), 'H') == (ch, r5);
    GroupTakes(d.minutes, 'M', cs);
    assert Group(r5, 'M') == (cmi, cs);
    GroupTakes(d.seconds, 'S', "");
    assert Group(cs, 'S') == (cs, "");
  }

  lemma StopsEmpty(designator: char)
    ensures Stops("", designator)
  {
  }

  /** Past the optional `T` come the time components. */
  lemma SkipTime(d: Duration)
    ensures SkipT(TimeText(d)) == Component(d.hours, 'H') + (Component(d.minutes, 'M') + Component(d.seconds, 'S'))
  {
    var r4 := Component(d.hours, 'H') + (Component(d.minutes, 'M') + Component(d.seconds, 'S'));
    if HasTime(d) {
      assert TimeText(d) == "T" + r4;
    } else {
      assert TimeText(d) == [] && r4 == [];
    }
  }

  /** The date groups read the date components and leave the time text. */
  lemma MatchDate(d: Duration)
    ensures var years := Group(Format(d)[1..], 'Y');
            var months := Group(years.1, 'M');
            var days := Group(months.1, 'D');
            years.0 == Component(d.years, 'Y') && months.0 == Component(d.months, 'M')
            && days == (Component(d.days, 'D'), TimeText(d))
  {
    var cy, cmo, cd := Component(d.years, 'Y'), Component(d.months, 'M'), Component(d.days, 'D');
    var r3 := TimeText(d);
    var r2 := cd + r3;
    var r1 := cmo + r2;
    FormatSplit(d);
    DateStops(d);
    GroupTakes(d.years, 'Y', r1);
    assert Group(Format(d)[1..], 'Y') == (cy, r1);
    GroupTakes(d.months, 'M', r2);
    assert Group(r1, 'M') == (cmo, r2);
    GroupTakes(d.days, 'D', r3);
  }

  /** After the `P` come the date components and the time text. */
  lemma FormatSplit(d: Duration)
    ensures Format(d)[1..] == Component(d.years, 'Y') + (Component(d.months, 'M') + (Component(d.days, 'D') + TimeText(d)))
  {
    DropHead("P", Component(d.years, 'Y'), Component(d.months, 'M'), Component(d.days, 'D'), TimeText(d));
  }

  lemma DropHead(p: string, a: string, b: string, c: string, t: string)
    ensures (p + a + b + c + t)[|p|..] == a + (b + (c + t))
  {
    assert p + a + b + c + t == p + (a + (b + (c + t)));
  }

  /** No date group can reach past its own component. */
  lemma DateStops(d: Duration)
    ensures var r3 := TimeText(d);
            var r2 := Component(d.days, 'D') + r3;
            Stops(r3, 'D') && Stops(r2, 'M') && Stops(Component(d.months, 'M') + r2, 'Y')
  {
    var r3 := TimeText(d);
    var r2 := Component(d.days, 'D') + r3;
    TimeStops(d, 'Y');
    TimeStops(d, 'M');
    TimeStops(d, 'D');
    StopsBefore(d.days, 'D', r3, 'Y');
    StopsBefore(d.days, 'D', r3, 'M');
    StopsBefore(d.months, 'M', r2, 'Y');
  }

  /** The groups of a duration written with designators are its written components. */
  lemma MatchFormat(d: Duration)
    ensures Match(Format(d)) == Some(Groups(Component(d.years, 'Y'), Component(d.months, 'M'),
      Component(d.days, 'D'), Component(d.hours, 'H'), Component(d.minutes, 'M'), Component(d.seconds, 'S')))
  {
    var s := Format(d);
    assert s[0] == 'P';
    assert IndexOf(s, 'P') == Some(0);
    MatchDate(d);
    MatchTime(d);
  }

  /** A written component reads back as its value, an absent one as 0. */
  lemma ComponentValue(n: Option<nat>, designator: char)
    requires Small(n)
    ensures ParseInt64(Component(n, designator)) == ValueOf(n)
  {
    if n.Some? {
      ParseInt64Designated(n.value, designator);
    }
  }

  /**
   * parseDuration reads a duration written with designators as its length:
   * 365-day years, 30-day months, days, hours, minutes and seconds added up,
   * absent components counting 0, wrapped to int64.
   */
  lemma ParseFormat(d: Duration)
    requires Small(d.years) && Small(d.months) && Small(d.days)
    requires Small(d.hours) && Small(d.minutes) && Small(d.seconds)
    ensures ParseDuration(Format(d)) == Some(Wrap64(Nanoseconds(d)))
  {
    var s := Format(d);
    var g := Groups(Component(d.years, 'Y'), Component(d.months, 'M'), Component(d.days, 'D'),
                    Component(d.hours, 'H'), Component(d.minutes, 'M'), Component(d.seconds, 'S'));
    MatchFormat(d);
    ParseMatched(s, g);
    ComponentValue(d.years, 'Y');
    ComponentValue(d.months, 'M');
    ComponentValue(d.days, 'D');
    ComponentValue(d.hours, 'H');
    ComponentValue(d.minutes, 'M');
    ComponentValue(d.seconds, 'S');
    SumNanoseconds(d);
  }

  lemma ParseMatched(s: string, g: Groups)
    requires Match(s) == Some(g)
    ensures ParseDuration(s) == Some(Wrap64(Sum(ParseInt64(g.years), ParseInt64(g.months), ParseInt64(g.days),
                                                 ParseInt64(g.hours), ParseInt64(g.minutes), ParseInt64(g.seconds))))
  {
  }

  lemma SumNanoseconds(d: Duration)
    ensures Sum(ValueOf(d.years), ValueOf(d.months), ValueOf(d.days),
                ValueOf(d.hours), ValueOf(d.minutes), ValueOf(d.seconds)) == Nanoseconds(d)
  {
    SumIsLength(ValueOf(d.years), ValueOf(d.months), ValueOf(d.days),
                ValueOf(d.hours), ValueOf(d.minutes), ValueOf(d.seconds));
  }

  /** parseDuration's expression counts 365 days to a year and 30 to a month. */
  lemma SumIsLength(years: int, months: int, days: int, hours: int, minutes: int, seconds: int)
    ensures Sum(years, months, days, hours, minutes, seconds)
         == years * 365 * Day + months * 30 * Day + days * Day + hours * Hour + minutes * Minute + seconds * Second
  {
    assert Hour == 3_600_000_000_000 && Day == 86_400_000_000_000;
  }

  /** An `M` after the `T` is minutes: `PTnM` lasts n minutes (`PT5M` is five minutes). */
  lemma MinutesAfterT(n: nat)
    requires n * Minute < TwoTo63
    ensures ParseDuration("PT" + DecimalString(n) + "M") == Some(n * Minute)
  {
    var d := Duration(None, None, None, None, Some(n), None);
    Scaled(n, Minute);
    MinutesText(n);
    ParseFormat(d);
    assert Nanoseconds(d) == n * Minute by { ComponentsLength(d); }
  }

  /** An `M` before the `T` is months: `PnM` lasts n times 30 days (`P1M` is 30 days). */
  lemma MonthsBeforeT(n: nat)
    requires n * 30 * Day < TwoTo63
    ensures ParseDuration("P" + DecimalString(n) + "M") == Some(n * 30 * Day)
  {
    var d := Duration(None, Some(n), None, None, None, None);
    Scaled(n, 30 * Day);
    assert n * 30 * Day == n * (30 * Day);
    MonthsText(n);
    ParseFormat(d);
    assert Nanoseconds(d) == n * 30 * Day by { ComponentsLength(d); }
  }

  /** A positive scale never makes a natural smaller. */
  lemma Scaled(n: nat, k: int)
    requires k >= 1
    ensures n <= n * k
  {
  }

  lemma MinutesText(n: nat)
    ensures Format(Duration(None, None, None, None, Some(n), None)) == "PT" + DecimalString(n) + "M"
  {
    var d := Duration(None, None, None, None, Some(n), None);
    assert TimeText(d) == "T" + (DecimalString(n) + "M");
  }

  lemma MonthsText(n: nat)
    ensures Format(Duration(None, Some(n), None, None, None, None)) == "P" + DecimalString(n) + "M"
  {
    var d := Duration(None, Some(n), None, None, None, None);
    assert TimeText(d) == "";
  }

  /** Each absent component adds nothing to the length. */
  lemma ComponentsLength(d: Duration)
    ensures Nanoseconds(d) == (if d.years.None? then 0 else d.years.value * 365 * Day)
      + (if d.months.None? then 0 else d.months.value * 30 * Day)
      + (if d.days.None? then 0 else d.days.value * Day)
      + (if d.hours.None? then 0 else d.hours.value * Hour)
      + (if d.minutes.None? then 0 else d.minutes.value * Minute)
      + (if d.seconds.None? then 0 else d.seconds.value * Second)
  {
  }
}
