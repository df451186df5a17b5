/**
 * The timeline of scheduler.go: channels of back-to-back clips, the lookups
 * the builder and the read path make on them, and the JST day boundary.
 * Times and durations are integers of nanoseconds (see Model).
 */
module Timeline {
  import opened Common
  import opened Model

  /** One clip on a channel (videoChannelItem): it plays from `time` for `duration`. */
  datatype Item = Item(time: int, duration: int, videoId: string)

  /** One channel's stream of clips (videoChannel). */
  datatype Channel = Channel(items: seq<Item>)

  /** The channels of one day (schedule). */
  datatype Schedule = Schedule(channels: seq<Channel>)

  /** The instant the clip stops playing (`item.Time.Add(item.Duration)`). */
  function End(it: Item): int { it.time + it.duration }

  /** Each item starts where the one before it ends. */
  predicate Contiguous(items: seq<Item>)
  {
    forall k :: 0 < k < |items| ==> items[k].time == End(items[k - 1])
  }

  /** Items in ascending order of start time. */
  predicate SortedByTime(items: seq<Item>)
  {
    forall i, j :: 0 <= i < j < |items| ==> items[i].time <= items[j].time
  }

  /** The clip IDs on a channel. */
  function ItemIds(items: seq<Item>): set<string>
  {
    set it | it in items :: it.videoId
  }

  /** No clip ID occurs twice. */
  predicate DistinctVideoIds(items: seq<Item>)
  {
    forall i, j :: 0 <= i < j < |items| ==> items[i].videoId != items[j].videoId
  }

  /** The sum of the durations of some items. */
  function TotalDuration(items: seq<Item>): int
  {
    if items == [] then 0 else TotalDuration(items[..|items| - 1]) + items[|items| - 1].duration
  }

  // ---------------------------------------------------------------------------
  // getFinishTime
  // ---------------------------------------------------------------------------

  /** getFinishTime: the end of the last item, or the zero time for an empty channel. */
  function FinishTime(c: Channel): int
  {
    if c.items == [] then ZeroTime else End(c.items[|c.items| - 1])
  }

  /**
   * A contiguous channel that starts at `start` finishes after the sum of its
   * durations; an empty one reports the zero time.
   */
  lemma {:induction false} FinishTimeIsTotal(items: seq<Item>, start: int)
    requires Contiguous(items) && (items != [] ==> items[0].time == start)
    ensures FinishTime(Channel(items)) == if items == [] then ZeroTime else start + TotalDuration(items)
  {
    if |items| > 1 {
      var init := items[..|items| - 1];
      FinishTimeIsTotal(init, start);
      assert init[|init| - 1] == items[|items| - 2];
    } else if |items| == 1 {
      assert items[..0] == [];
    }
  }

  // ---------------------------------------------------------------------------
  // getVideoID
  // ---------------------------------------------------------------------------

  /**
   * The test getVideoID applies to each item: the item does not start before
   * t, and t comes before its end.
   */
  predicate Answers(it: Item, t: int)
  {
    !(it.time < t) && t < End(it)
  }

  /** getVideoID: scan the items in order for the first that answers t. */
  function GetVideoId(items: seq<Item>, t: int): Option<string>
  {
    if items == [] then None
    else if items[0].time < t then GetVideoId(items[1..], t)
    else if t < End(items[0]) then Some(items[0].videoId)
    else GetVideoId(items[1..], t)
  }

  /** getVideoID returns the ID of the first item that answers t. */
  lemma {:induction false} GetVideoIdFirst(items: seq<Item>, t: int, k: nat)
    requires k < |items| && Answers(items[k], t)
    requires forall j :: 0 <= j < k ==> !Answers(items[j], t)
    ensures GetVideoId(items, t) == Some(items[k].videoId)
  {
    if k > 0 {
      GetVideoIdFirst(items[1..], t, k - 1);
    }
  }

  /** getVideoID fails exactly when no item answers t. */
  lemma {:induction false} GetVideoIdNone(items: seq<Item>, t: int)
    ensures GetVideoId(items, t).None? <==> forall k :: 0 <= k < |items| ==> !Answers(items[k], t)
  {
    if items != [] {
      GetVideoIdNone(items[1..], t);
      assert forall k :: 1 <= k < |items| ==> items[k] == items[1..][k - 1];
    }
  }

  /**
   * With positive durations an item answers t exactly when it starts at or
   * after t: getVideoID reports the first clip to START at or after t, not
   * the clip playing at t, and an item that started before t and is still
   * playing at t is never reported.
   */
  lemma GetVideoIdNext(items: seq<Item>, t: int, k: nat)
    requires forall j :: 0 <= j < |items| ==> items[j].duration > 0
    requires k < |items| && items[k].time >= t
    requires forall j :: 0 <= j < k ==> items[j].time < t
    ensures GetVideoId(items, t) == Some(items[k].videoId)
  {
    GetVideoIdFirst(items, t, k);
  }

  // ---------------------------------------------------------------------------
  // merge
  // ---------------------------------------------------------------------------

  /** The items of channel i of a schedule, none when it has no such channel. */
  function ItemsOf(s: Schedule, i: nat): seq<Item>
  {
    if i < |s.channels| then s.channels[i].items else []
  }

  /**
   * merge: as many channels as s, each holding s's items followed by the
   * items of other's channel of the same index.
   */
  method Merge(s: Schedule, other: Schedule) returns (r: Schedule)
    ensures |r.channels| == |s.channels|
    ensures forall i :: 0 <= i < |s.channels| ==> r.channels[i].items == s.channels[i].items + ItemsOf(other, i)
  {
    var channels: seq<Channel> := [];
    for i := 0 to |s.channels|
      invariant |channels| == i
      invariant forall j :: 0 <= j < i ==> channels[j].items == s.channels[j].items + ItemsOf(other, j)
    {
      var c := s.channels[i];
      var otherChannel := Channel([]);
      if i < |other.channels| {
        otherChannel := other.channels[i];
      }
      var items: seq<Item> := [];
      for k := 0 to |c.items|
        invariant items == c.items[..k]
      {
        items := items + [c.items[k]];
      }
      for k := 0 to |otherChannel.items|
        invariant items == c.items + otherChannel.items[..k]
      {
        items := items + [otherChannel.items[k]];
      }
      channels := channels + [Channel(items)];
    }
    r := Schedule(channels);
  }

  /**
   * Joining a channel with the one that continues it (it starts where the
   * first finishes) gives one contiguous channel that finishes where the
   * second does.
   */
  lemma JoinContiguous(a: seq<Item>, b: seq<Item>)
    requires Contiguous(a) && Contiguous(b)
    requires a != [] && b != [] ==> b[0].time == FinishTime(Channel(a))
    ensures Contiguous(a + b)
    ensures b != [] ==> FinishTime(Channel(a + b)) == FinishTime(Channel(b))
  {
    var c := a + b;
    forall k | 0 < k < |c| ensures c[k].time == End(c[k - 1]) {
      if k > |a| {
        assert c[k] == b[k - |a|] && c[k - 1] == b[k - 1 - |a|];
      }
    }
  }

  // ---------------------------------------------------------------------------
  // getPart
  // ---------------------------------------------------------------------------

  /** The item plays at some instant of [a, b]: it ends at or after a and starts at or before b. */
  predicate Overlaps(it: Item, a: int, b: int)
  {
    End(it) >= a && it.time <= b
  }

  /** getPart's scan of one channel: skip items that end before a, stop at the first that starts after b. */
  function Part(items: seq<Item>, a: int, b: int): seq<Item>
  {
    if items == [] then []
    else if End(items[0]) < a then Part(items[1..], a, b)
    else if items[0].time > b then []
    else [items[0]] + Part(items[1..], a, b)
  }

  /** The items that overlap [a, b], in their order. */
  function Overlapping(items: seq<Item>, a: int, b: int): (r: seq<Item>)
    ensures forall it :: it in r <==> it in items && Overlaps(it, a, b)
  {
    if items == [] then []
    else
      assert forall it :: it in items <==> it == items[0] || it in items[1..];
      (if Overlaps(items[0], a, b) then [items[0]] else []) + Overlapping(items[1..], a, b)
  }

  /**
   * On a channel sorted by start time getPart's scan keeps exactly the items
   * that overlap [a, b]: stopping at the first item that starts after b
   * loses none.
   */
  lemma {:induction false} PartOfSorted(items: seq<Item>, a: int, b: int)
    requires SortedByTime(items)
    ensures Part(items, a, b) == Overlapping(items, a, b)
  {
    if items != [] {
      assert SortedByTime(items[1..]);
      if End(items[0]) >= a && items[0].time > b {
        forall j | 0 <= j < |items[1..]| ensures !Overlaps(items[1..][j], a, b) {
          assert items[0].time <= items[j + 1].time;
        }
        NoneOverlapping(items[1..], a, b);
      } else {
        PartOfSorted(items[1..], a, b);
      }
    }
  }

  lemma {:induction false} NoneOverlapping(items: seq<Item>, a: int, b: int)
    requires forall j :: 0 <= j < |items| ==> !Overlaps(items[j], a, b)
    ensures Overlapping(items, a, b) == []
  {
    if items != [] {
      NoneOverlapping(items[1..], a, b);
    }
  }

  /**
   * getPart: for every channel, the items from the first that ends at or
   * after startTime up to, not including, the first after it that starts
   * after startTime + duration; on time-sorted channels, exactly the items
   * that overlap [startTime, startTime + duration].
   */
  method GetPart(s: Schedule, startTime: int, duration: int) returns (r: Schedule)
    ensures |r.channels| == |s.channels|
    ensures forall i :: 0 <= i < |s.channels| ==>
      r.channels[i].items == Part(s.channels[i].items, startTime, startTime + duration)
    ensures forall i :: 0 <= i < |s.channels| && SortedByTime(s.channels[i].items) ==>
      r.channels[i].items == Overlapping(s.channels[i].items, startTime, startTime + duration)
  {
    var endTime := startTime + duration;
    var channels: seq<Channel> := [];
    for i := 0 to |s.channels|
      invariant |channels| == i
      invariant forall j :: 0 <= j < i ==> channels[j].items == Part(s.channels[j].items, startTime, endTime)
    {
      var c := s.channels[i];
      var items: seq<Item> := [];
      var k := 0;
      while k < |c.items|
        invariant 0 <= k <= |c.items|
        invariant items + Part(c.items[k..], startTime, endTime) == Part(c.items, startTime, endTime)
      {
        var it := c.items[k];
        assert c.items[k..][1..] == c.items[k + 1..];
        var finish := End(it);
        if finish < startTime {
          k := k + 1;
          continue;
        }
        if it.time > endTime {
          break;
        }
        items := items + [it];
        k := k + 1;
      }
      assert k == |c.items| ==> c.items[k..] == [];
      channels := channels + [Channel(items)];
    }
    r := Schedule(channels);
    forall i | 0 <= i < |s.channels| && SortedByTime(s.channels[i].items)
      ensures r.channels[i].items == Overlapping(s.channels[i].items, startTime, endTime)
    {
      PartOfSorted(s.channels[i].items, startTime, endTime);
    }
  }

  // ---------------------------------------------------------------------------
  // truncateHour
  // ---------------------------------------------------------------------------

  /** The offset of the fixed Asia/Tokyo zone: UTC+9. */
  const JstOffset: int := 9 * Hour

  /**
   * truncateHour: midnight, Japan time, of the day holding t. The result is
   * a JST midnight and t lies in the 24 hours that follow it.
   */
  function TruncateHour(t: int): (r: int)
    ensures (r + JstOffset) % Day == 0
    ensures r <= t < r + Day
  {
    t - (t + JstOffset) % Day
  }

  /** Only one JST midnight lies in the 24 hours up to t: truncateHour's. */
  lemma TruncateHourUnique(t: int, m: int)
    requires (m + JstOffset) % Day == 0 && m <= t < m + Day
    ensures m == TruncateHour(t)
  {
    var r := TruncateHour(t);
    var q := (m + JstOffset) / Day;
    var p := (r + JstOffset) / Day;
    assert m + JstOffset == q * Day;
    assert r + JstOffset == p * Day;
  }

  /** Truncating twice is truncating once. */
  lemma TruncateHourIdempotent(t: int)
    ensures TruncateHour(TruncateHour(t)) == TruncateHour(t)
  {
    var r := TruncateHour(t);
    TruncateHourUnique(r, r);
  }

  /** The next JST midnight after t, as createChannel computes it, is after t and at most a day away. */
  lemma NextMidnight(t: int)
    ensures t < TruncateHour(t + Day) <= t + Day
  {
  }
}
