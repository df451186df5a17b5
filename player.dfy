/**
 * The two pure helpers of the browser player (public/main.js): finding the
 * item of a channel that plays at a given moment, and reading the fields of
 * a schedule timestamp.
 *
 * The player compares dates by their difference in seconds; the model
 * keeps every time and duration as an integer count of seconds.
 */
module Player {
  import opened Common

  // ---------------------------------------------------------------------------
  // getVideoAndOffset
  // ---------------------------------------------------------------------------

  /** A schedule item as the player holds it: start, length, and the clip to show. */
  datatype PlayerItem = PlayerItem(time: int, duration: int, videoId: string)

  /** The item plays at date: date lies between its start and its end, both included. */
  predicate Plays(item: PlayerItem, date: int)
  {
    0 <= date - item.time <= item.duration
  }

  /**
   * Where the search starts: at the first item showing currentId, past the
   * end when no item does, at the first item when there is no current clip.
   */
  function SearchStart(items: seq<PlayerItem>, currentId: Option<string>): (k: nat)
    ensures k <= |items|
    ensures currentId.None? ==> k == 0
    ensures currentId.Some? ==>
              (forall j :: 0 <= j < k ==> items[j].videoId != currentId.value)
              && (k < |items| ==> items[k].videoId == currentId.value)
  {
    if currentId.None? || items == [] then 0
    else if items[0].videoId == currentId.value then 0
    else 1 + SearchStart(items[1..], currentId)
  }

  /** The first item from index k on that plays at date. */
  function FirstPlaying(items: seq<PlayerItem>, date: int, k: nat): (r: Option<nat>)
    requires k <= |items|
    ensures r.Some? ==> k <= r.value < |items| && Plays(items[r.value], date)
                        && forall j :: k <= j < r.value ==> !Plays(items[j], date)
    ensures r.None? ==> forall j :: k <= j < |items| ==> !Plays(items[j], date)
    decreases |items| - k
  {
    if k == |items| then None
    else if Plays(items[k], date) then Some(k)
    else FirstPlaying(items, date, k + 1)
  }

  /**
   * getVideoAndOffset: the first item that plays at date, starting from the
   * current clip when there is one, with how far into it date lies; when no
   * item qualifies, the first item from its start (undefined, None, for an
   * empty channel).
   */
  method GetVideoAndOffset(items: seq<PlayerItem>, date: int, currentId: Option<string>)
    returns (video: Option<PlayerItem>, offset: int)
    ensures match FirstPlaying(items, date, SearchStart(items, currentId))
            case Some(k) => video == Some(items[k]) && offset == date - items[k].time
            case None => offset == 0 && video == (if items == [] then None else Some(items[0]))
    ensures video.Some? && offset != 0 ==> 0 < offset <= video.value.duration
  {
    ghost var start := SearchStart(items, currentId);
    var skip := currentId.Some?;
    for i := 0 to |items|
      invariant skip <==> currentId.Some? && i <= start
      invariant forall j :: start <= j < i ==> !Plays(items[j], date)
    {
      var item := items[i];
      if skip {
        if item.videoId != currentId.value {
          continue;
        }
        skip := false;
      }
      var diff := date - item.time;
      if diff < 0 || diff > item.duration {
        continue;
      }
      return Some(item), diff;
    }
    if items == [] {
      return None, 0;
    }
    return Some(items[0]), 0;
  }

  /** An item before the first one showing the current clip is never the answer, unless by the fallback. */
  lemma NeverBeforeCurrent(items: seq<PlayerItem>, date: int, id: string, j: nat)
    requires j < |items| && items[j].videoId == id
    requires forall i :: 0 <= i < j ==> items[i].videoId != id
    ensures var r := FirstPlaying(items, date, SearchStart(items, Some(id)));
            r.Some? ==> r.value >= j
  {
  }

  // ---------------------------------------------------------------------------
  // parseDate
  // ---------------------------------------------------------------------------

  /** String.prototype.split with a one-character separator: the pieces between separators. */
  function Split(s: string, sep: char): (r: seq<string>)
    ensures |r| >= 1
  {
    if s == [] then [""]
    else
      var rest := Split(s[1..], sep);
      if s[0] == sep then [""] + rest else [[s[0]] + rest[0]] + rest[1..]
  }

  /** The k-th element of an array, undefined (None) past its end. */
  function At(a: seq<string>, k: nat): Option<string>
  {
    if k < |a| then Some(a[k]) else None
  }

  /**
   * WhiteSpace and LineTerminator of ECMAScript (sections 12.2 and 12.3 of
   * ECMA-262): tab, line tabulation, form feed, space, no-break space, the
   * byte order mark, the other space separators of Unicode, and the line
   * feed, carriage return, line and paragraph separators.
   */
  predicate IsSpace(c: char)
  {
    var n := c as int;
    n == 0x09 || n == 0x0A || n == 0x0B || n == 0x0C || n == 0x0D || n == 0x20 || n == 0xA0
    || n == 0x1680 || (0x2000 <= n <= 0x200A) || n == 0x2028 || n == 0x2029 || n == 0x202F
    || n == 0x205F || n == 0x3000 || n == 0xFEFF
  }

  function TrimStart(s: string): (r: string)
    ensures r == [] || !IsSpace(r[0])
    ensures |r| <= |s| && r == s[|s| - |r|..]
  {
    if s != [] && IsSpace(s[0]) then TrimStart(s[1..]) else s
  }

  /**
   * parseInt(s, 10): leading white space, an optional sign, then the longest
   * run of decimal digits; NaN (None) when there are no digits. undefined is
   * read as the text "undefined" and gives NaN too.
   */
  function ParseInt(s: Option<string>): Option<int>
  {
    if s.None? then None
    else
      var t := TrimStart(s.value);
      var negative := t != [] && t[0] == '-';
      var body := if t != [] && (t[0] == '-' || t[0] == '+') then t[1..] else t;
      var n := Lead(body);
      if n == 0 then None
      else
        var v := DigitsValue(body[..n]);
        Some(if negative then -(v as int) else v)
  }

  /** The six fields parseDate returns; None is NaN. */
  datatype DateFields = DateFields(year: Option<int>, month: Option<int>, day: Option<int>,
                                   hours: Option<int>, minutes: Option<int>, seconds: Option<int>)

  /**
   * parseDate: the date before the `T` split at `-`, the time after it cut
   * at the first `+` and split at `:`, each piece read by parseInt. The zone
   * after the `+` is ignored, since the schedule is written in JST. None
   * where the source throws: a string without `T` has no `x[1]`.
   */
  function ParseDate(dateStr: string): (r: Option<DateFields>)
    ensures r.None? <==> 'T' !in dateStr
  {
    var x := Split(dateStr, 'T');
    SplitSingle(dateStr, 'T');
    if |x| < 2 then None
    else
      Some(Fields(Split(x[0], '-'), Split(Split(x[1], '+')[0], ':')))
  }

  /** The destructured pieces of the date and the time, each read by parseInt. */
  function Fields(date: seq<string>, time: seq<string>): DateFields
  {
    DateFields(ParseInt(At(date, 0)), ParseInt(At(date, 1)), ParseInt(At(date, 2)),
               ParseInt(At(time, 0)), ParseInt(At(time, 1)), ParseInt(At(time, 2)))
  }

  /** A string splits into more than one piece exactly when it holds the separator. */
  lemma {:induction false} SplitSingle(s: string, sep: char)
    ensures |Split(s, sep)| == 1 <==> sep !in s
    ensures sep !in s ==> Split(s, sep) == [s]
  {
    if s != [] {
      SplitSingle(s[1..], sep);
      assert s == [s[0]] + s[1..];
    }
  }

  /** Splitting a piece free of the separator followed by the separator. */
  lemma {:induction false} SplitAt(a: string, sep: char, b: string)
    requires sep !in a
    ensures Split(a + [sep] + b, sep) == [a] + Split(b, sep)
  {
    if a == [] {
      assert a + [sep] + b == [sep] + b;
      assert ([sep] + b)[1..] == b;
    } else {
      assert (a + [sep] + b)[1..] == a[1..] + [sep] + b;
      SplitAt(a[1..], sep, b);
      assert [a[0]] + a[1..] == a;
    }
  }

  function DatePart(year: string, month: string, day: string): string
  {
    year + "-" + month + "-" + day
  }

  function TimePart(hours: string, minutes: string, seconds: string): string
  {
    hours + ":" + minutes + ":" + seconds
  }

  /** A schedule timestamp as the server writes it, fields in decimal. */
  function Timestamp(year: string, month: string, day: string, hours: string, minutes: string,
                     seconds: string, fraction: string, zone: string): string
  {
    DatePart(year, month, day) + "T" + TimePart(hours, minutes, seconds + fraction) + "+" + zone
  }

  /** The digits of a field are free of every separator parseDate uses. */
  predicate Field(s: string)
  {
    s != [] && AllDigits(s)
  }

  lemma FieldHasNo(s: string, c: char)
    requires Field(s) && !IsDigit(c)
    ensures c !in s
  {
  }

  /**
   * parseDate reads `YYYY-MM-DDTHH:MM:SS`, with an optional fraction of a
   * second and then a `+hh:mm` zone (or anything after the `+`), as the six
   * numbers written, whatever their zero padding.
   */
  lemma ParseDateFormat(year: string, month: string, day: string, hours: string, minutes: string,
                        seconds: string, fraction: string, zone: string)
    requires Field(year) && Field(month) && Field(day) && Field(hours) && Field(minutes) && Field(seconds)
    requires fraction == [] || (fraction[0] == '.' && AllDigits(fraction[1..]))
    ensures ParseDate(Timestamp(year, month, day, hours, minutes, seconds, fraction, zone)) == Some(DateFields(Some(DigitsValue(year) as int), Some(DigitsValue(month) as int), Some(DigitsValue(day) as int),
                               Some(DigitsValue(hours) as int), Some(DigitsValue(minutes) as int), Some(DigitsValue(seconds) as int)))
  {
    var date := DatePart(year, month, day);
    var time := TimePart(hours, minutes, seconds + fraction);
    var s := date + ['T'] + (time + "+" + zone);
    assert s == Timestamp(year, month, day, hours, minutes, seconds, fraction, zone);
    DateSplit(year, month, day);
    FieldHasNo(hours, ':');
    FieldHasNo(minutes, ':');
    FieldHasNo(hours, 'T');
    FieldHasNo(minutes, 'T');
    FieldHasNo(hours, '+');
    FieldHasNo(minutes, '+');
    assert forall c :: c in seconds + fraction ==> c == '.' || IsDigit(c);
    TimeSplit(hours, minutes, seconds + fraction);
    SplitAt(date, 'T', time + "+" + zone);
    ZoneCut(time, zone);
    var x := Split(s, 'T');
    assert x[0] == date && x[1] == Split(time + "+" + zone, 'T')[0];
    assert Split(Split(x[1], '+')[0], ':') == [hours, minutes, seconds + fraction];
    assert ParseDate(s) == Some(Fields([year, month, day], [hours, minutes, seconds + fraction]));
    FieldsValue(year, month, day, hours, minutes, seconds, fraction);
  }

  /** The six pieces read as the numbers written. */
  lemma FieldsValue(year: string, month: string, day: string, hours: string, minutes: string,
                    seconds: string, fraction: string)
    requires Field(year) && Field(month) && Field(day) && Field(hours) && Field(minutes) && Field(seconds)
    requires fraction == [] || (fraction[0] == '.' && AllDigits(fraction[1..]))
    ensures Fields([year, month, day], [hours, minutes, seconds + fraction])
         == DateFields(Some(DigitsValue(year) as int), Some(DigitsValue(month) as int), Some(DigitsValue(day) as int),
                       Some(DigitsValue(hours) as int), Some(DigitsValue(minutes) as int), Some(DigitsValue(seconds) as int))
  {
    var date, time := [year, month, day], [hours, minutes, seconds + fraction];
    assert At(date, 0) == Some(year) && At(date, 1) == Some(month) && At(date, 2) == Some(day);
    assert At(time, 0) == Some(hours) && At(time, 1) == Some(minutes) && At(time, 2) == Some(seconds + fraction);
    FieldValue(year);
    FieldValue(month);
    FieldValue(day);
    FieldValue(hours);
    FieldValue(minutes);
    SecondsValue(seconds, fraction);
  }

  /** The date part splits at its two dashes into its three fields. */
  lemma DateSplit(year: string, month: string, day: string)
    requires Field(year) && Field(month) && Field(day)
    ensures 'T' !in DatePart(year, month, day)
    ensures Split(DatePart(year, month, day), '-') == [year, month, day]
  {
    FieldHasNo(year, '-');
    FieldHasNo(month, '-');
    FieldHasNo(day, '-');
    FieldHasNo(year, 'T');
    FieldHasNo(month, 'T');
    FieldHasNo(day, 'T');
    assert DatePart(year, month, day) == year + ['-'] + (month + ['-'] + day);
    SplitAt(year, '-', month + ['-'] + day);
    SplitAt(month, '-', day);
    SplitSingle(day, '-');
  }

  /** The time part splits at its two colons. */
  lemma TimeSplit(hours: string, minutes: string, seconds: string)
    requires ':' !in hours && ':' !in minutes && ':' !in seconds
    ensures Split(TimePart(hours, minutes, seconds), ':') == [hours, minutes, seconds]
  {
    assert TimePart(hours, minutes, seconds) == hours + [':'] + (minutes + [':'] + seconds);
    SplitAt(hours, ':', minutes + [':'] + seconds);
    SplitAt(minutes, ':', seconds);
    SplitSingle(seconds, ':');
  }

  /** The second piece at T, cut at the first +, is the time when the time holds neither. */
  lemma ZoneCut(time: string, zone: string)
    requires 'T' !in time && '+' !in time
    ensures Split(Split(time + "+" + zone, 'T')[0], '+')[0] == time
  {
    assert time + "+" + zone == time + ("+" + zone);
    SplitHead(time, "+" + zone, 'T');
    SplitHead("+", zone, 'T');
    var rest := Split(zone, 'T')[0];
    assert Split(time + "+" + zone, 'T')[0] == time + ['+'] + rest;
    SplitAt(time, '+', rest);
  }

  /** A field reads as its digits. */
  lemma FieldValue(s: string)
    requires Field(s)
    ensures ParseInt(Some(s)) == Some(DigitsValue(s) as int)
  {
    SecondsValue(s, []);
    assert s + [] == s;
  }

  /** The first piece of a + b, when a is free of the separator, starts with a. */
  lemma {:induction false} SplitHead(a: string, b: string, sep: char)
    requires sep !in a
    ensures Split(a + b, sep)[0] == a + Split(b, sep)[0]
  {
    if a != [] {
      assert (a + b)[1..] == a[1..] + b;
      SplitHead(a[1..], b, sep);
      assert [a[0]] + a[1..] == a;
    } else {
      assert a + b == b;
    }
  }

  /** The seconds field reads as its digits: parseInt stops at the fraction's point. */
  lemma SecondsValue(seconds: string, fraction: string)
    requires Field(seconds)
    requires fraction == [] || (fraction[0] == '.' && AllDigits(fraction[1..]))
    ensures ParseInt(Some(seconds + fraction)) == Some(DigitsValue(seconds) as int)
  {
    var t := seconds + fraction;
    assert !IsSpace(t[0]);
    assert TrimStart(t) == t;
    LeadDigits(seconds, fraction);
    assert t[..Lead(t)] == seconds;
  }
}
