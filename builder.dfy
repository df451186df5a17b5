/**
 * The timeline builder of scheduler.go: createChannel fills one channel
 * from a start time up to the next JST midnight with clips drawn from the
 * sampler, and createSchedule builds the day's four channels in order.
 */
module Builder {
  import opened Common
  import opened Model
  import opened Sampler
  import opened Timeline

  /** The number of channels of a day (channelCount). */
  const ChannelCount: nat := 4

  /** Clips of 30 minutes or more are never scheduled. */
  const MaxDuration: int := 30 * Minute

  /** The IDs the other channels report at instant t through getVideoID. */
  function CrossIds(others: seq<Channel>, t: int): set<string>
  {
    set j | 0 <= j < |others| && GetVideoId(others[j].items, t).Some? :: GetVideoId(others[j].items, t).value
  }

  /** No item plays the clip that another channel reports (getVideoID) at the item's start. */
  predicate NoCrossRepeat(items: seq<Item>, others: seq<Channel>)
  {
    forall k, j :: 0 <= k < |items| && 0 <= j < |others| ==>
      GetVideoId(others[j].items, items[k].time) != Some(items[k].videoId)
  }

  /** The item plays a clip of the pool, for that clip's own duration. */
  predicate FromPool(it: Item, pool: seq<VideoInfo>)
  {
    exists v :: v in pool && v.id == it.videoId && v.duration == it.duration
  }

  predicate AllFromPool(items: seq<Item>, pool: seq<VideoInfo>)
  {
    forall k :: 0 <= k < |items| ==> FromPool(items[k], pool)
  }

  /**
   * What createChannel guarantees of the items of a channel that starts at
   * `start`, built while the channels `others` already existed: the first
   * item starts at `start` and each next one where the previous ends, every
   * clip is shorter than 30 minutes, every item starts before the next JST
   * midnight, no clip repeats, and no item plays the clip another channel
   * reports at that item's start.
   */
  predicate WellBuilt(items: seq<Item>, start: int, others: seq<Channel>)
  {
    && Contiguous(items)
    && (items != [] ==> items[0].time == start)
    && (forall k :: 0 <= k < |items| ==> items[k].duration < MaxDuration)
    && (forall k :: 0 <= k < |items| ==> items[k].time < TruncateHour(start + Day))
    && DistinctVideoIds(items)
    && NoCrossRepeat(items, others)
  }

  /** Distinct clip IDs: as many IDs as items. */
  lemma {:induction false} ItemIdsCard(items: seq<Item>)
    requires DistinctVideoIds(items)
    ensures |ItemIds(items)| == |items|
  {
    if items != [] {
      var init := items[..|items| - 1];
      var last := items[|items| - 1];
      assert items == init + [last];
      ItemIdsCard(init);
      assert ItemIds(items) == ItemIds(init) + {last.videoId};
      assert last.videoId !in ItemIds(init);
    }
  }

  /** A pool that only grows keeps every clip it held. */
  lemma PoolGrows(items: seq<Item>, pool: seq<VideoInfo>, pool': seq<VideoInfo>)
    requires AllFromPool(items, pool)
    requires |pool| <= |pool'| && pool'[..|pool|] == pool
    ensures AllFromPool(items, pool')
  {
    forall k | 0 <= k < |items| ensures FromPool(items[k], pool') {
      var v :| v in pool && v.id == items[k].videoId && v.duration == items[k].duration;
      assert v in pool'[..|pool|];
    }
  }

  /**
   * The exclusion set of one round of createChannel: the clips already on the
   * channel and, for every other channel, the clip getVideoID reports at t.
   */
  method Exclusions(items: seq<Item>, others: seq<Channel>, t: int) returns (exclude: set<string>)
    ensures exclude == ItemIds(items) + CrossIds(others, t)
  {
    exclude := {};
    for k := 0 to |items|
      invariant exclude == ItemIds(items[..k])
    {
      assert items[..k + 1] == items[..k] + [items[k]];
      exclude := exclude + {items[k].videoId};
    }
    assert items[..|items|] == items;
    for j := 0 to |others|
      invariant exclude == ItemIds(items) + CrossIds(others[..j], t)
    {
      assert forall x :: 0 <= x < j ==> others[..j + 1][x] == others[..j][x];
      var id := GetVideoId(others[j].items, t);
      if id.None? {
        continue;
      }
      exclude := exclude + {id.value};
    }
    assert others[..|others|] == others;
  }

  /** Appending a clip drawn against the round's exclusion set keeps the channel well built. */
  lemma AppendKeeps(items: seq<Item>, start: int, others: seq<Channel>, current: int, exclude: set<string>, it: Item)
    requires WellBuilt(items, start, others)
    requires current == if items == [] then start else End(items[|items| - 1])
    requires current < TruncateHour(start + Day)
    requires ItemIds(items) + CrossIds(others, current) <= exclude
    requires it.time == current && it.videoId !in exclude && it.duration < MaxDuration
    ensures WellBuilt(items + [it], start, others)
  {
    var r := items + [it];
    forall k | 0 <= k < |items| ensures items[k].videoId != it.videoId {
      assert items[k] in items;
    }
    forall j | 0 <= j < |others| ensures GetVideoId(others[j].items, current) != Some(it.videoId) {
      assert GetVideoId(others[j].items, current).Some? ==>
        GetVideoId(others[j].items, current).value in CrossIds(others, current);
    }
    assert forall k :: 0 <= k < |items| ==> r[k] == items[k];
  }

  /**
   * One round of createChannel: a clip drawn against the round's exclusion
   * set from a pool that outnumbers the set, appended at the current time,
   * keeps the channel well built and no longer than the pool.
   */
  lemma RoundKeeps(items: seq<Item>, start: int, others: seq<Channel>, current: int,
                   exclude: set<string>, it: Item, pool: seq<VideoInfo>)
    requires WellBuilt(items, start, others) && AllFromPool(items, pool)
    requires current == if items == [] then start else End(items[|items| - 1])
    requires current < TruncateHour(start + Day)
    requires exclude == ItemIds(items) + CrossIds(others, current)
    requires it.time == current && it.videoId !in exclude && it.duration < MaxDuration
    requires FromPool(it, pool) && |exclude| < |pool|
    ensures WellBuilt(items + [it], start, others) && AllFromPool(items + [it], pool)
    ensures |items + [it]| <= |pool|
  {
    ItemIdsCard(items);
    SubsetCard(ItemIds(items), exclude);
    AppendKeeps(items, start, others, current, exclude, it);
    assert forall k :: 0 <= k < |items| ==> (items + [it])[k] == items[k];
  }

  /**
   * The evidence of a failed draw against `exclude`: the draw had grown the
   * exclusion set to `excludeIds` by clips of the pool lasting 30 minutes or
   * more, and the sampler then could not grow the pool past that set
   * (GetVideo failed with fewer than |excludeIds| + 100 records loaded).
   */
  ghost predicate DrawFailed(pool: seq<VideoInfo>, exclude: set<string>, excludeIds: set<string>)
  {
    && exclude <= excludeIds
    && |pool| < |excludeIds| + 100
    && forall id :: id in excludeIds && id !in exclude ==>
         exists u :: u in pool && u.id == id && u.duration >= MaxDuration
  }

  /**
   * The inner loop of createChannel: draw from the sampler against the
   * exclusion set, and exclude and draw again while the clip lasts 30 minutes
   * or more. A failed draw ends the loop with no clip; `grown` is the
   * exclusion set it had grown to.
   */
  method DrawShort(source: VideoSource, exclude: set<string>) returns (v: Option<VideoInfo>, ghost grown: set<string>)
    requires source.Valid()
    modifies source`videos, source`drawn
    ensures source.Valid()
    ensures |old(source.videos)| <= |source.videos| && source.videos[..|old(source.videos)|] == old(source.videos)
    ensures v.Some? ==> && v.value in source.videos && v.value.id !in exclude
                        && v.value.duration < MaxDuration && |exclude| < |source.videos|
    ensures v.None? ==> DrawFailed(source.videos, exclude, grown)
  {
    var excludeIds := exclude;
    while true
      invariant source.Valid() && exclude <= excludeIds
      invariant |old(source.videos)| <= |source.videos| && source.videos[..|old(source.videos)|] == old(source.videos)
      invariant forall id :: id in excludeIds && id !in exclude ==>
        exists u :: u in source.videos && u.id == id && u.duration >= MaxDuration
      decreases source.allVideoCount + 100 - |excludeIds|
    {
      ghost var pool := source.videos;
      var w := source.GetVideo(excludeIds);
      assert source.videos[..|old(source.videos)|] == pool[..|old(source.videos)|];
      forall u | u in pool ensures u in source.videos {
        assert u in source.videos[..|pool|];
      }
      if w.None? {
        return None, excludeIds;
      }
      var video := w.value;
      if video.duration >= MaxDuration {
        excludeIds := excludeIds + {video.id};
        continue;
      }
      SubsetCard(exclude, excludeIds);
      return Some(video), excludeIds;
    }
  }

  /**
   * One round of createChannel's loop: build the exclusion set for the
   * current time and draw a clip shorter than 30 minutes against it. The
   * item that plays it at the current time extends the channel.
   */
  method NextItem(source: VideoSource, items: seq<Item>, startTime: int, others: seq<Channel>, currentTime: int)
    returns (it: Option<Item>, ghost excludeIds: set<string>)
    requires source.Valid()
    requires WellBuilt(items, startTime, others) && AllFromPool(items, source.videos)
    requires currentTime == if items == [] then startTime else End(items[|items| - 1])
    requires currentTime < TruncateHour(startTime + Day)
    modifies source`videos, source`drawn
    ensures source.Valid()
    ensures |old(source.videos)| <= |source.videos| && source.videos[..|old(source.videos)|] == old(source.videos)
    ensures it.Some? ==>
      && it.value.time == currentTime
      && WellBuilt(items + [it.value], startTime, others)
      && AllFromPool(items + [it.value], source.videos)
      && |items| + 1 <= |source.videos|
    ensures it.None? ==> DrawFailed(source.videos, ItemIds(items) + CrossIds(others, currentTime), excludeIds)
  {
    var exclude := Exclusions(items, others, currentTime);
    var v;
    v, excludeIds := DrawShort(source, exclude);
    if v.None? {
      return None, excludeIds;
    }
    PoolGrows(items, old(source.videos), source.videos);
    var video := v.value;
    var item := Item(currentTime, video.duration, video.id);
    assert FromPool(item, source.videos);
    RoundKeeps(items, startTime, others, currentTime, exclude, item, source.videos);
    return Some(item), excludeIds;
  }

  /**
   * The evidence of a channel whose build failed: the items `partial` built
   * so far were well built from `start`, the channel had not reached the
   * next midnight, and the draw for the next item failed against that
   * round's exclusion set.
   */
  ghost predicate ChannelFailed(pool: seq<VideoInfo>, partial: seq<Item>, start: int, others: seq<Channel>,
                                excludeIds: set<string>)
  {
    && WellBuilt(partial, start, others) && AllFromPool(partial, pool)
    && var current := if partial == [] then start else End(partial[|partial| - 1]);
       && current < TruncateHour(start + Day)
       && DrawFailed(pool, ItemIds(partial) + CrossIds(others, current), excludeIds)
  }

  /**
   * createChannel: from startTime until the next JST midnight, draw a clip
   * shorter than 30 minutes against the round's exclusion set and append it.
   * A failed draw ends the channel as an empty channel (the error is
   * dropped); `partial` and `excludeIds` are then the items built so far and
   * the exclusion set the failed draw had grown to. Otherwise the channel
   * runs up to or past the midnight, and every item plays a loaded clip for
   * that clip's duration.
   */
  method CreateChannel(source: VideoSource, startTime: int, others: seq<Channel>)
    returns (c: Channel, ghost failed: bool, ghost partial: seq<Item>, ghost excludeIds: set<string>)
    requires source.Valid()
    modifies source`videos, source`drawn
    ensures source.Valid()
    ensures |old(source.videos)| <= |source.videos| && source.videos[..|old(source.videos)|] == old(source.videos)
    ensures WellBuilt(c.items, startTime, others) && AllFromPool(c.items, source.videos)
    ensures failed ==> c.items == [] && ChannelFailed(source.videos, partial, startTime, others, excludeIds)
    ensures !failed ==> c.items != [] && FinishTime(c) >= TruncateHour(startTime + Day)
  {
    var currentTime := startTime;
    var items: seq<Item> := [];
    var nextDay := TruncateHour(startTime + Day);
    NextMidnight(startTime);
    while currentTime < nextDay
      invariant source.Valid()
      invariant |old(source.videos)| <= |source.videos| && source.videos[..|old(source.videos)|] == old(source.videos)
      invariant WellBuilt(items, startTime, others) && AllFromPool(items, source.videos)
      invariant currentTime == if items == [] then startTime else End(items[|items| - 1])
      invariant |items| <= source.allVideoCount + 100
      decreases source.allVideoCount + 100 - |items|
    {
      ghost var pool := source.videos;
      var it;
      it, excludeIds := NextItem(source, items, startTime, others, currentTime);
      assert source.videos[..|old(source.videos)|] == pool[..|old(source.videos)|];
      if it.None? {
        PoolGrows(items, pool, source.videos);
        return Channel([]), true, items, excludeIds;
      }
      items := items + [it.value];
      currentTime := currentTime + it.value.duration;
    }
    return Channel(items), false, items, {};
  }

  /** The finish time of channel i of the previous day, when there is one. */
  function PrevFinish(prev: Option<Schedule>, i: nat): Option<int>
  {
    if prev.Some? && i < |prev.value.channels| then Some(FinishTime(prev.value.channels[i])) else None
  }

  /**
   * createSchedule's start time of channel i: the previous day's channel i
   * finish time when it exists and is not before t, and t otherwise.
   */
  function StartTime(prev: Option<Schedule>, i: nat, t: int): (r: int)
    ensures r >= t
    ensures PrevFinish(prev, i).Some? && PrevFinish(prev, i).value >= t ==> r == PrevFinish(prev, i).value
    ensures PrevFinish(prev, i).None? || PrevFinish(prev, i).value < t ==> r == t
  {
    if prev.None? then t
    else if i >= |prev.value.channels| then t
    else
      var finishTime := FinishTime(prev.value.channels[i]);
      if finishTime < t then t else finishTime
  }

  /**
   * A clip that runs past the new day's start carries over: when the
   * previous day's channel finishes at or after t, the new channel starts
   * exactly where it finishes, so the two days merged form one contiguous
   * channel.
   */
  lemma CarryOver(prev: Schedule, i: nat, t: int, items: seq<Item>, others: seq<Channel>)
    requires i < |prev.channels| && Contiguous(prev.channels[i].items)
    requires FinishTime(prev.channels[i]) >= t
    requires WellBuilt(items, StartTime(Some(prev), i, t), others)
    ensures Contiguous(prev.channels[i].items + items)
  {
    JoinContiguous(prev.channels[i].items, items);
  }

  /**
   * What createSchedule guarantees of channel j of `channels` once the pool
   * is `pool`: the channel is well built from its start time against the
   * channels before it, plays loaded clips, and reaches the next midnight
   * unless it is empty; and it is empty only when its build failed, when
   * the pool was the first `poolSize` records of `pool`, with `partial` and
   * `excludeIds` as the evidence.
   */
  ghost predicate ChannelBuilt(channels: seq<Channel>, j: nat, prev: Option<Schedule>, t: int, pool: seq<VideoInfo>,
                               partial: seq<Item>, excludeIds: set<string>, poolSize: nat)
    requires j < |channels|
  {
    && WellBuilt(channels[j].items, StartTime(prev, j, t), channels[..j])
    && AllFromPool(channels[j].items, pool)
    && (channels[j].items == [] || FinishTime(channels[j]) >= TruncateHour(StartTime(prev, j, t) + Day))
    && (channels[j].items == [] ==>
          && poolSize <= |pool|
          && ChannelFailed(pool[..poolSize], partial, StartTime(prev, j, t), channels[..j], excludeIds))
  }

  /** A channel keeps what createSchedule guarantees of it while later channels are built and the pool grows. */
  lemma ChannelBuiltKept(channels: seq<Channel>, j: nat, prev: Option<Schedule>, t: int, pool: seq<VideoInfo>,
                         pool': seq<VideoInfo>, partial: seq<Item>, excludeIds: set<string>, poolSize: nat, channel: Channel)
    requires j < |channels| && ChannelBuilt(channels, j, prev, t, pool, partial, excludeIds, poolSize)
    requires |pool| <= |pool'| && pool'[..|pool|] == pool
    ensures ChannelBuilt(channels + [channel], j, prev, t, pool', partial, excludeIds, poolSize)
  {
    var cs := channels + [channel];
    assert cs[j] == channels[j] && cs[..j] == channels[..j];
    PoolGrows(channels[j].items, pool, pool');
    if channels[j].items == [] {
      assert pool'[..poolSize] == pool[..poolSize];
    }
  }

  /**
   * createSchedule: build channels 0 to 3 in order, channel i from its start
   * time and seeing channels 0 to i - 1 as the other channels of the day.
   * Each channel is as ChannelBuilt says, with `partials[i]`,
   * `excluded[i]` and `poolSizes[i]` the evidence of a failed build.
   */
  method CreateSchedule(source: VideoSource, prev: Option<Schedule>, t: int)
    returns (s: Schedule, ghost partials: seq<seq<Item>>, ghost excluded: seq<set<string>>, ghost poolSizes: seq<nat>)
    requires source.Valid()
    modifies source`videos, source`drawn
    ensures source.Valid()
    ensures |old(source.videos)| <= |source.videos| && source.videos[..|old(source.videos)|] == old(source.videos)
    ensures |s.channels| == ChannelCount
    ensures |partials| == |excluded| == |poolSizes| == ChannelCount
    ensures forall i :: 0 <= i < ChannelCount ==>
      ChannelBuilt(s.channels, i, prev, t, source.videos, partials[i], excluded[i], poolSizes[i])
  {
    var channels: seq<Channel> := [];
    partials, excluded, poolSizes := [], [], [];
    for i := 0 to ChannelCount
      invariant source.Valid() && |channels| == i
      invariant |old(source.videos)| <= |source.videos| && source.videos[..|old(source.videos)|] == old(source.videos)
      invariant |partials| == |excluded| == |poolSizes| == i
      invariant forall j :: 0 <= j < i ==>
        ChannelBuilt(channels, j, prev, t, source.videos, partials[j], excluded[j], poolSizes[j])
    {
      var startTime := StartTime(prev, i, t);
      ghost var pool := source.videos;
      var channel;
      ghost var failed, partial, excludeIds;
      channel, failed, partial, excludeIds := CreateChannel(source, startTime, channels);
      assert source.videos[..|pool|] == pool;
      forall j | 0 <= j < i
        ensures ChannelBuilt(channels + [channel], j, prev, t, source.videos, partials[j], excluded[j], poolSizes[j])
      {
        ChannelBuiltKept(channels, j, prev, t, pool, source.videos, partials[j], excluded[j], poolSizes[j], channel);
      }
      assert (channels + [channel])[..i] == channels;
      assert source.videos[..|source.videos|] == source.videos;
      assert ChannelBuilt(channels + [channel], i, prev, t, source.videos, partial, excludeIds, |source.videos|);
      channels := channels + [channel];
      partials, excluded, poolSizes := partials + [partial], excluded + [excludeIds], poolSizes + [|source.videos|];
    }
    s := Schedule(channels);
  }
}
